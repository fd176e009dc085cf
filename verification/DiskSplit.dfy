/** Splitting a disk request and joining its pieces again (sys/geom/geom_disk.c, g_clone_bio of sys/geom/geom_io.c). */
module DiskSplit {
  const ENOMEM := 12

  /** The part of the request a clone asks for. */
  datatype Span = Span(offset: int, length: nat)

  /** A clone waits to be submitted, is with the driver, or has come back. */
  datatype Stage = Cloned | Submitted | Returned(bytes: int, error: int)

  /** Where g_disk_start is: the current clone is uncut, or cut with the next one cloned or not, or all are submitted. */
  datatype Phase = Idle | Cutting | Ready(next: bool) | Finished

  /** What can set the error of the parent: a piece that comes back, a clone that could not be made. */
  datatype Event = Back(error: int) | NoClone

  /** The error of the parent after the first `n` events. */
  function ErrorOf(log: seq<Event>, n: nat): int
    requires n <= |log|
  {
    if n == 0 then 0
    else
      var was := ErrorOf(log, n - 1);
      match log[n - 1]
      case Back(e) => if was == 0 then e else was
      case NoClone => ENOMEM
  }

  lemma {:induction false} ErrorAppend(log: seq<Event>, x: Event, n: nat)
    requires n <= |log|
    ensures ErrorOf(log + [x], n) == ErrorOf(log, n)
  {
    if n > 0 {
      ErrorAppend(log, x, n - 1);
    }
  }

  ghost predicate FirstError(log: seq<Event>, k: nat)
    requires k < |log| && NoClone !in log
  {
    log[k].error != 0 && forall i :: 0 <= i < k ==> log[i] == Back(0)
  }

  /** With every clone made, the first error to come back is kept. */
  lemma {:induction false} FirstErrorKept(log: seq<Event>, k: nat, n: nat)
    requires NoClone !in log && k < n <= |log| && FirstError(log, k)
    ensures ErrorOf(log, n) == log[k].error
  {
    if n == k + 1 {
      NoErrorYet(log, k);
    } else {
      FirstErrorKept(log, k, n - 1);
      assert log[n - 1].Back?;
    }
  }

  lemma {:induction false} NoErrorYet(log: seq<Event>, n: nat)
    requires n <= |log| && forall i :: 0 <= i < n ==> log[i] == Back(0)
    ensures ErrorOf(log, n) == 0
  {
    if n > 0 {
      NoErrorYet(log, n - 1);
    }
  }

  /** A clone that could not be made shows as ENOMEM, whatever else came back before or after. */
  lemma {:induction false} NoCloneWins(log: seq<Event>, k: nat, n: nat)
    requires k < n <= |log| && log[k] == NoClone
    ensures ErrorOf(log, n) == ENOMEM
  {
    if k < n - 1 {
      NoCloneWins(log, k, n - 1);
    }
  }

  /** The first `n` spans follow each other from `from` to `to`. */
  ghost predicate Chain(s: seq<Span>, n: nat, from: int, to: int)
    requires n <= |s|
  {
    if n == 0 then from == to
    else s[n - 1].offset + s[n - 1].length == to && Chain(s, n - 1, from, s[n - 1].offset)
  }

  /** A chain depends on its own spans only. */
  lemma {:induction false} ChainSame(s: seq<Span>, t: seq<Span>, n: nat, from: int, to: int)
    requires n <= |s| && n <= |t| && Chain(s, n, from, to) && forall i :: 0 <= i < n ==> t[i] == s[i]
    ensures Chain(t, n, from, to)
  {
    if n > 0 {
      ChainSame(s, t, n - 1, from, s[n - 1].offset);
    }
  }

  ghost predicate InSpan(s: Span, at: int) {
    s.offset <= at < s.offset + s.length
  }

  lemma {:induction false} ChainForward(s: seq<Span>, n: nat, from: int, to: int)
    requires n <= |s| && Chain(s, n, from, to)
    ensures from <= to
  {
    if n > 0 {
      ChainForward(s, n - 1, from, s[n - 1].offset);
    }
  }

  /** Spans of a chain stay inside it. */
  lemma {:induction false} ChainWithin(s: seq<Span>, n: nat, from: int, to: int, i: nat)
    requires i < n <= |s| && Chain(s, n, from, to)
    ensures from <= s[i].offset && s[i].offset + s[i].length <= to
  {
    ChainForward(s, n - 1, from, s[n - 1].offset);
    if i < n - 1 {
      ChainWithin(s, n - 1, from, s[n - 1].offset, i);
    }
  }

  /** Every place in the range is in exactly one span of a chain. */
  lemma {:induction false} ChainCovers(s: seq<Span>, n: nat, from: int, to: int, at: int) returns (i: nat)
    requires n <= |s| && Chain(s, n, from, to) && from <= at < to
    ensures i < n && InSpan(s[i], at) && forall j :: 0 <= j < n && InSpan(s[j], at) ==> j == i
  {
    if at < s[n - 1].offset {
      i := ChainCovers(s, n - 1, from, s[n - 1].offset, at);
    } else {
      i := n - 1;
      forall j | 0 <= j < n && InSpan(s[j], at) ensures j == i {
        if j < n - 1 {
          ChainWithin(s, n - 1, from, s[n - 1].offset, j);
        }
      }
    }
  }

  /** How many of the first `n` pieces are back, and how many bytes they moved. */
  function CountBack(st: seq<Stage>, n: nat): (c: nat)
    requires n <= |st|
    ensures c <= n
  {
    if n == 0 then 0 else CountBack(st, n - 1) + if st[n - 1].Returned? then 1 else 0
  }

  function BytesBack(st: seq<Stage>, n: nat): int
    requires n <= |st|
  {
    if n == 0 then 0 else BytesBack(st, n - 1) + if st[n - 1].Returned? then st[n - 1].bytes else 0
  }

  lemma {:induction false} CountSame(st: seq<Stage>, t: seq<Stage>, n: nat)
    requires n <= |st| && n <= |t| && forall i :: 0 <= i < n ==> st[i] == t[i]
    ensures CountBack(st, n) == CountBack(t, n) && BytesBack(st, n) == BytesBack(t, n)
  {
    if n > 0 {
      CountSame(st, t, n - 1);
    }
  }

  lemma {:induction false} CountChange(st: seq<Stage>, i: nat, x: Stage, n: nat)
    requires i < n <= |st| && !st[i].Returned?
    ensures CountBack(st[i := x], n) == CountBack(st, n) + if x.Returned? then 1 else 0
    ensures BytesBack(st[i := x], n) == BytesBack(st, n) + if x.Returned? then x.bytes else 0
  {
    if i < n - 1 {
      CountChange(st, i, x, n - 1);
    } else {
      CountSame(st[i := x], st, n - 1);
    }
  }

  lemma CountAppend(st: seq<Stage>)
    ensures CountBack(st + [Cloned], |st| + 1) == CountBack(st, |st|)
    ensures BytesBack(st + [Cloned], |st| + 1) == BytesBack(st, |st|)
  {
    CountSame(st + [Cloned], st, |st|);
  }

  /** All pieces are back exactly when their number is. */
  lemma {:induction false} AllBack(st: seq<Stage>, n: nat)
    requires n <= |st|
    ensures CountBack(st, n) == n <==> forall i :: 0 <= i < n ==> st[i].Returned?
  {
    if n > 0 {
      AllBack(st, n - 1);
    }
  }

  /** A request, its clones in the order they were made, and the part of g_disk_start still to run. */
  class Request {
    const offset: nat
    const length: nat
    const maxsize: nat
    var spans: seq<Span>
    var stages: seq<Stage>
    var children: nat
    var inbed: nat
    var completed: int
    var error: int
    var off: nat
    var phase: Phase
    var delivered: seq<int>
    ghost var failed: bool
    ghost var log: seq<Event>

    /** How far the pieces cut so far reach. */
    ghost function Reach(): int
      reads `failed, `phase, `off
    {
      if failed || phase.Cutting? || phase == Ready(true) then offset + off else offset + length
    }

    /** How many of the clones have been cut to their piece. */
    ghost function Cuts(): int
      reads `phase, `spans
    {
      if phase.Cutting? || phase == Ready(true) then |spans| - 1 else |spans|
    }

    /** The pieces cut so far follow each other, all but the last of the full size, none larger. */
    ghost predicate Shape()
      reads `failed, `phase, `off, `spans
    {
      && 0 <= Cuts()
      && (phase.Idle? ==> spans == [] && off == 0 && !failed)
      && (!phase.Idle? && spans != [] ==> Chain(spans, Cuts(), offset, Reach()))
      && (forall i :: 0 <= i < Cuts() ==> if i < Cuts() - 1 then spans[i].length == maxsize else spans[i].length <= maxsize)
      && (failed || phase.Cutting? || phase == Ready(true) ==> forall i :: 0 <= i < Cuts() ==> spans[i].length == maxsize)
      && (phase.Cutting? || phase == Ready(true) ==> spans[|spans| - 1] == Span(offset, length) && !failed)
      && (phase.Cutting? ==> off < length || (off == 0 && |spans| == 1))
      && (phase == Ready(true) ==> off < length && |spans| >= 2)
      && (phase == Ready(false) ==> spans != [])
      && (phase.Finished? && spans == [] ==> failed)
    }

    /** Clones are submitted in the order they were made. */
    ghost predicate Staged()
      reads `phase, `spans, `stages
    {
      |stages| == |spans| && forall i :: 0 <= i < |stages| ==> (stages[i] == Cloned <==> i >= Sent())
    }

    ghost function Sent(): int
      reads `phase, `spans
    {
      match phase
      case Idle => 0
      case Cutting => |spans| - 1
      case Ready(next) => if next then |spans| - 2 else |spans| - 1
      case Finished => |spans|
    }

    /** The counters of the parent. */
    ghost predicate Counted()
      reads `children, `stages, `inbed, `completed, `error, `log, `failed
    {
      && children == |stages| && inbed == CountBack(stages, |stages|) && completed == BytesBack(stages, |stages|)
      && error == ErrorOf(log, |log|) && (failed <==> NoClone in log)
    }

    /** One delivery, when every clone was submitted and is back. */
    ghost predicate Delivered()
      reads `children, `inbed, `error, `delivered, `phase
    {
      delivered == if phase.Finished? && inbed == children then [error] else []
    }

    ghost predicate Valid()
      reads this
    {
      maxsize > 0 && Shape() && Staged() && Counted() && Delivered()
    }

    constructor (offset: nat, length: nat, maxsize: nat)
      requires maxsize > 0
      ensures Valid() && phase == Idle && this.offset == offset && this.length == length && this.maxsize == maxsize
    {
      this.offset, this.length, this.maxsize := offset, length, maxsize;
      spans, stages, children, inbed, completed, error, off := [], [], 0, 0, 0, 0, 0;
      phase, delivered, failed, log := Idle, [], false, [];
    }

    /** The first clone; without it the request is delivered with ENOMEM. */
    method Begin(memory: bool)
      requires Valid() && phase == Idle
      modifies this
      ensures Valid() && (if memory then phase == Cutting else phase == Finished && delivered == [ENOMEM])
    {
      if !memory {
        failed, log := true, log + [NoClone];
        error := ENOMEM;
        phase := Finished;
        delivered := delivered + [ENOMEM];
        return;
      }
      CountAppend(stages);
      spans, stages := spans + [Span(offset, length)], stages + [Cloned];
      children := children + 1;
      phase := Cutting;
    }

    /** Cut the current clone to its piece; when more is left the next clone is made first. */
    method Cut(memory: bool)
      requires Valid() && phase == Cutting
      modifies this
      ensures Valid() && phase.Ready? && (phase.next ==> memory && off == old(off) + maxsize)
    {
      var cur := |spans| - 1;
      var bp := Span(spans[cur].offset + off, spans[cur].length - off);
      if bp.length > maxsize {
        spans := spans[cur := Span(bp.offset, maxsize)];
        off := off + maxsize;
        ChainSame(old(spans), spans, cur, offset, offset + old(off));
        CloneNext(memory);
      } else {
        spans := spans[cur := bp];
        phase := Ready(false);
        ChainSame(old(spans), spans, cur, offset, offset + old(off));
      }
    }

    method CloneNext(memory: bool)
      requires maxsize > 0 && phase == Cutting && Counted() && Delivered() && Staged() && !failed && |spans| == |stages| > 0 && off < length
      requires Chain(spans, |spans|, offset, offset + off) && forall i :: 0 <= i < |spans| ==> spans[i].length == maxsize
      modifies this
      ensures Valid() && phase == Ready(memory) && off == old(off)
    {
      if memory {
        ChainSame(spans, spans + [Span(offset, length)], |spans|, offset, offset + off);
        CountAppend(stages);
        spans, stages := spans + [Span(offset, length)], stages + [Cloned];
        children := children + 1;
        phase := Ready(true);
      } else {
        failed, log := true, log + [NoClone];
        error := ENOMEM;
        phase := Ready(false);
      }
    }

    /** Hand the current clone to the driver and go on to the next one. */
    method Submit()
      requires Valid() && phase.Ready?
      modifies this
      ensures Valid() && spans == old(spans) && off == old(off)
      ensures phase == if old(phase).next then Cutting else Finished
    {
      var cur := if phase.next then |spans| - 2 else |spans| - 1;
      CountChange(stages, cur, Submitted, |stages|);
      AllBack(stages[cur := Submitted], |stages|);
      stages := stages[cur := Submitted];
      phase := if phase.next then Cutting else Finished;
    }

    /** While g_disk_start is running its current clone is not back. */
    lemma StillOut()
      requires Shape() && Staged() && stages != []
      ensures phase != Finished ==> CountBack(stages, |stages|) < |stages|
    {
      AllBack(stages, |stages|);
      assert phase != Finished ==> stages[|stages| - 1] == Cloned;
    }

    /** A piece comes back from the driver; the last one delivers the request. */
    method Return(i: nat, resid: int, e: int)
      requires Valid() && i < |stages| && stages[i] == Submitted
      modifies `stages, `log, `error, `completed, `inbed, `delivered
      ensures Valid()
      ensures stages == old(stages)[i := Returned(spans[i].length - resid, e)] && log == old(log) + [Back(e)]
    {
      assert delivered == [] by {
        AllBack(stages, |stages|);
      }
      Join(i, spans[i].length - resid, e);
      StillOut();
      if children == inbed {
        delivered := delivered + [error];
      }
    }

    /** The parent takes over what a piece brings back. */
    method Join(i: nat, bytes: int, e: int)
      requires Staged() && Counted() && i < |stages| && stages[i] == Submitted
      modifies `stages, `log, `error, `completed, `inbed
      ensures Staged() && Counted() && stages == old(stages)[i := Returned(bytes, e)] && log == old(log) + [Back(e)]
    {
      CountChange(stages, i, Returned(bytes, e), |stages|);
      ErrorAppend(log, Back(e), |log|);
      stages := stages[i := Returned(bytes, e)];
      log := log + [Back(e)];
      if error == 0 {
        error := e;
      }
      completed := completed + bytes;
      inbed := inbed + 1;
    }

    /** Pieces that come back at some point, in any order; entries that name no submitted piece are skipped. */
    method Returns(back: seq<(nat, int, int)>)
      requires Valid()
      modifies `stages, `log, `error, `completed, `inbed, `delivered
      ensures Valid()
    {
      for k := 0 to |back|
        invariant Valid()
      {
        var (i, resid, e) := back[k];
        if i < |stages| && stages[i] == Submitted {
          Return(i, resid, e);
        }
      }
    }

    /**
     * The loop of g_disk_start, for any outcome of the allocations and any returns
     * before and during each call of the driver.
     */
    method Start(memory: nat -> bool, before: nat -> seq<(nat, int, int)>, during: nat -> seq<(nat, int, int)>)
      requires Valid() && phase == Idle
      modifies this
      ensures Valid() && phase == Finished
    {
      Begin(memory(0));
      var n := 0;
      while phase != Finished
        invariant Valid() && (phase == Cutting || phase == Finished)
        decreases phase != Finished, length - off
      {
        n := n + 1;
        Cut(memory(n));
        Returns(before(n));
        Submit();
        Returns(during(n));
      }
    }
  }

  /** Once the loop has ended the pieces tile the request, or what was cut before a clone failed. */
  lemma PiecesTile(r: Request)
    requires r.Valid() && r.phase == Finished && !r.failed
    ensures Chain(r.spans, |r.spans|, r.offset, r.offset + r.length)
    ensures forall i :: 0 <= i < |r.spans| ==> r.spans[i].length <= r.maxsize
    ensures forall i :: 0 <= i < |r.spans| - 1 ==> r.spans[i].length == r.maxsize
  {
  }

  /** The request is delivered exactly once, with its error, when the loop has ended and every piece is back; not before. */
  lemma DeliveredOnce(r: Request)
    requires r.Valid()
    ensures (exists e :: r.delivered == [e]) <==> r.phase == Finished && forall i :: 0 <= i < |r.stages| ==> r.stages[i].Returned?
    ensures r.delivered == [] || r.delivered == [ErrorOf(r.log, |r.log|)]
  {
    AllBack(r.stages, |r.stages|);
    if r.phase == Finished && forall i :: 0 <= i < |r.stages| ==> r.stages[i].Returned? {
      assert r.delivered == [r.error];
    }
  }

  /** What a delivered request reports: the bytes of all pieces, and ENOMEM, the first error to come back, or none. */
  lemma DeliveredResult(r: Request)
    requires r.Valid() && r.delivered != []
    ensures r.completed == BytesBack(r.stages, |r.stages|) && CountBack(r.stages, |r.stages|) == |r.stages|
    ensures NoClone in r.log ==> r.delivered == [ENOMEM]
    ensures (forall i :: 0 <= i < |r.log| ==> r.log[i] == Back(0)) ==> r.delivered == [0]
    ensures NoClone !in r.log ==>
              forall k :: 0 <= k < |r.log| && FirstError(r.log, k) ==> r.delivered == [r.log[k].error]
  {
    if NoClone in r.log {
      var k :| 0 <= k < |r.log| && r.log[k] == NoClone;
      NoCloneWins(r.log, k, |r.log|);
    } else if forall i :: 0 <= i < |r.log| ==> r.log[i] == Back(0) {
      NoErrorYet(r.log, |r.log|);
    } else {
      forall k | 0 <= k < |r.log| && FirstError(r.log, k) ensures r.delivered == [r.log[k].error] {
        FirstErrorKept(r.log, k, |r.log|);
      }
    }
  }
}
