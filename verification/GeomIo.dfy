/** The life of a bio between consumers and providers, and the handing over of orphans (sys/geom/geom_io.c, sys/geom/geom_event.c). */
module GeomIo {
  import Numbers

  const EPERM := 1
  const EIO := 5
  const ENXIO := 6
  const ENOMEM := 12
  const EINVAL := 22

  datatype Command = Read | Write | Delete | GetAttr | Flush | Other

  /**
   * With its owner; on the queue down; with the provider; refused for lack of memory and not yet requested again;
   * on the queue up; on the task queue.
   */
  datatype Stage = Idle | Down | Held | Retry | Up | Task

  /** What is asked for, and what the consumer may do. */
  datatype Transfer = Transfer(cmd: Command, mayRead: bool, mayWrite: bool, offset: int, length: nat)

  datatype Bio = Bio(io: Transfer, to: nat, stage: Stage, onQueue: bool)

  datatype Provider = Provider(sectorsize: nat, mediasize: nat, error: int, orphan: bool, nstart: int, nend: int)

  predicate Queued(s: Stage) {
    s == Down || s == Up || s == Task
  }

  /** Requested and not given back. */
  predicate Outstanding(s: Stage) {
    s == Down || s == Held || s == Task || s == Retry
  }

  /** Outstanding and counted as such by its provider. */
  predicate Counted(s: Stage) {
    s == Down || s == Held || s == Task
  }

  function Moved(bios: map<nat, Bio>, b: nat, s: Stage): map<nat, Bio>
    requires b in bios
  {
    bios[b := bios[b].(stage := s, onQueue := Queued(s))]
  }

  /** The bios a provider counts. */
  ghost function InFlight(bios: map<nat, Bio>, p: nat): set<nat> {
    set b | b in bios && bios[b].to == p && Counted(bios[b].stage)
  }

  /** A queue holds exactly the bios of its stage, each once. */
  ghost predicate Holds(bios: map<nat, Bio>, q: seq<nat>, s: Stage) {
    && (forall i :: 0 <= i < |q| ==> q[i] in bios && bios[q[i]].stage == s)
    && (forall i, j :: 0 <= i < j < |q| ==> q[i] != q[j])
    && (forall b :: b in bios && bios[b].stage == s ==> b in q)
  }

  ghost predicate Flagged(bios: map<nat, Bio>) {
    forall b :: b in bios ==> (bios[b].onQueue <==> Queued(bios[b].stage))
  }

  ghost predicate Balanced(bios: map<nat, Bio>, provs: map<nat, Provider>) {
    && (forall b :: b in bios ==> bios[b].to in provs)
    && (forall p :: p in provs ==> provs[p].nstart - provs[p].nend == |InFlight(bios, p)|)
  }

  lemma MoveFlags(bios: map<nat, Bio>, b: nat, s: Stage)
    requires b in bios && Flagged(bios)
    ensures Flagged(Moved(bios, b, s))
  {
  }

  /** Entering a queue. */
  lemma Enqueue(bios: map<nat, Bio>, q: seq<nat>, b: nat, s: Stage)
    requires b in bios && bios[b].stage != s && Holds(bios, q, s)
    ensures Holds(Moved(bios, b, s), q + [b], s)
  {
    assert forall x :: x in q + [b] <==> x in q || x == b;
  }

  /** Leaving a queue at its head. */
  lemma Dequeue(bios: map<nat, Bio>, q: seq<nat>, s: Stage, to: Stage)
    requires q != [] && Holds(bios, q, s) && to != s
    ensures Holds(Moved(bios, q[0], to), q[1..], s)
  {
    forall b | b in Moved(bios, q[0], to) && Moved(bios, q[0], to)[b].stage == s ensures b in q[1..] {
      assert b in q;
    }
  }

  /** Queues of other stages do not notice. */
  lemma OtherQueue(bios: map<nat, Bio>, q: seq<nat>, s: Stage, b: nat, to: Stage)
    requires b in bios && bios[b].stage != s && to != s && Holds(bios, q, s)
    ensures Holds(Moved(bios, b, to), q, s)
  {
  }

  /** What moving a bio does to the number its provider counts. */
  lemma CountMoved(bios: map<nat, Bio>, b: nat, s: Stage, p: nat)
    requires b in bios
    ensures |InFlight(Moved(bios, b, s), p)| == |InFlight(bios, p)|
         + (if bios[b].to != p then 0 else (if Counted(s) then 1 else 0) - (if Counted(bios[b].stage) then 1 else 0))
  {
    var was, now := InFlight(bios, p), InFlight(Moved(bios, b, s), p);
    if bios[b].to == p && Counted(bios[b].stage) && !Counted(s) {
      assert now == was - {b};
    } else if bios[b].to == p && !Counted(bios[b].stage) && Counted(s) {
      assert now == was + {b};
    } else {
      assert now == was;
    }
  }

  /** The counters of a provider after `starts` more requests and `ends` more deliveries. */
  function Tally(provs: map<nat, Provider>, p: nat, starts: int, ends: int): map<nat, Provider>
    requires p in provs
  {
    provs[p := provs[p].(nstart := provs[p].nstart + starts, nend := provs[p].nend + ends)]
  }

  /** Moving a bio and counting it keeps the balance. */
  lemma BalanceMoved(bios: map<nat, Bio>, provs: map<nat, Provider>, b: nat, s: Stage, starts: int, ends: int)
    requires Balanced(bios, provs) && b in bios
    requires starts - ends == (if Counted(s) then 1 else 0) - (if Counted(bios[b].stage) then 1 else 0)
    ensures Balanced(Moved(bios, b, s), Tally(provs, bios[b].to, starts, ends))
  {
    forall p | p in provs ensures
        var q := Tally(provs, bios[b].to, starts, ends);
        q[p].nstart - q[p].nend == |InFlight(Moved(bios, b, s), p)|
    {
      CountMoved(bios, b, s, p);
    }
  }

  /** Why a request is refused before the provider sees it; 0 if it is not. */
  function Check(b: Transfer, p: Provider): int {
    if (b.cmd == Read || b.cmd == GetAttr) && !b.mayRead then EPERM
    else if (b.cmd == Write || b.cmd == Delete || b.cmd == Flush) && !b.mayWrite then EPERM
    else if b.cmd == Other then EPERM
    else if p.error != 0 then p.error
    else if !Transfers(b.cmd) then 0
    else if p.sectorsize == 0 then ENXIO
    else if b.offset % p.sectorsize != 0 || b.length % p.sectorsize != 0 then EINVAL
    else if b.offset < 0 || b.offset > p.mediasize then EIO
    else 0
  }

  predicate Transfers(c: Command) {
    c == Read || c == Write || c == Delete
  }

  /** A transfer cut to the end of the media. */
  function Cut(b: Transfer, p: Provider): nat
    requires Check(b, p) == 0
  {
    if Transfers(b.cmd) && b.offset + b.length > p.mediasize then p.mediasize - b.offset else b.length
  }

  /** What reaches a provider is permitted, aligned and inside the media, and is not cut more than needed. */
  lemma CheckedTransfer(b: Transfer, p: Provider)
    requires Check(b, p) == 0
    ensures p.error == 0 && b.cmd != Other && (if b.cmd == Read || b.cmd == GetAttr then b.mayRead else b.mayWrite)
    ensures Transfers(b.cmd) ==> 0 <= b.offset <= b.offset + Cut(b, p) <= p.mediasize && Cut(b, p) <= b.length
    ensures Transfers(b.cmd) && Cut(b, p) < b.length ==> b.offset + Cut(b, p) == p.mediasize
    ensures Transfers(b.cmd) && p.mediasize % p.sectorsize == 0 ==> Cut(b, p) % p.sectorsize == 0
  {
    if Transfers(b.cmd) && p.mediasize % p.sectorsize == 0 {
      DifferenceAligned(p.mediasize, b.offset, p.sectorsize);
    }
  }

  lemma DifferenceAligned(x: int, y: int, s: int)
    requires s > 0 && x % s == 0 && y % s == 0
    ensures (x - y) % s == 0
  {
    assert x - y == (x / s - y / s) * s;
    MultipleAligned(x / s - y / s, s);
  }

  lemma MultipleAligned(k: int, s: int)
    requires s > 0
    ensures k * s % s == 0
  {
    var x := k * s;
    assert s * (x / s) + x % s == s * k + 0;
    Numbers.EuclidUnique(s, x / s, x % s, k, 0);
  }

  // The whole state and its steps.

  datatype State = State(bios: map<nat, Bio>, provs: map<nat, Provider>, down: seq<nat>, up: seq<nat>, task: seq<nat>,
                         doorstep: seq<nat>)

  ghost predicate Distinct(q: seq<nat>) {
    forall i, j :: 0 <= i < j < |q| ==> q[i] != q[j]
  }

  /** Every bio is on the queue of its stage only and flagged so; every provider counts the bios it still has. */
  ghost predicate Sound(s: State) {
    && Holds(s.bios, s.down, Down) && Holds(s.bios, s.up, Up) && Holds(s.bios, s.task, Task)
    && Flagged(s.bios) && Balanced(s.bios, s.provs)
    && Distinct(s.doorstep) && forall p :: p in s.doorstep ==> p in s.provs && s.provs[p].orphan
  }

  predicate AtStage(s: State, b: nat, g: Stage) {
    b in s.bios && s.bios[b].stage == g && s.bios[b].to in s.provs
  }

  /** A bio is requested from its provider. */
  function Requested(s: State, b: nat): State
    requires AtStage(s, b, Idle) || AtStage(s, b, Retry)
  {
    s.(bios := Moved(s.bios, b, Down), provs := Tally(s.provs, s.bios[b].to, 1, 0), down := s.down + [b])
  }

  /** A provider gives a bio back: it goes up, or waits to be requested again when memory was short. */
  function Delivered(s: State, b: nat, error: int): State
    requires AtStage(s, b, Held)
  {
    var provs := Tally(s.provs, s.bios[b].to, 0, 1);
    if error == ENOMEM then s.(bios := Moved(s.bios, b, Retry), provs := provs)
    else s.(bios := Moved(s.bios, b, Up), provs := provs, up := s.up + [b])
  }

  /** A provider passes a bio to the task queue. */
  function Deferred(s: State, b: nat): State
    requires AtStage(s, b, Held)
  {
    s.(bios := Moved(s.bios, b, Task), task := s.task + [b])
  }

  /** The head of the queue down goes to its provider, the head of the queue up to its owner, a task to its provider. */
  function TakenDown(s: State): State
    requires s.down != [] && s.down[0] in s.bios
  {
    s.(bios := Moved(s.bios, s.down[0], Held), down := s.down[1..])
  }

  function TakenUp(s: State): State
    requires s.up != [] && s.up[0] in s.bios
  {
    s.(bios := Moved(s.bios, s.up[0], Idle), up := s.up[1..])
  }

  function TakenTask(s: State): State
    requires s.task != [] && s.task[0] in s.bios
  {
    s.(bios := Moved(s.bios, s.task[0], Held), task := s.task[1..])
  }

  /** A provider is marked for error and put on the doorstep. */
  function Orphaned(s: State, p: nat, error: int): State
    requires p in s.provs
  {
    s.(provs := s.provs[p := s.provs[p].(error := error, orphan := true)], doorstep := s.doorstep + [p])
  }

  /** The first provider on the doorstep that has given back all it was asked for. */
  function Quiet(s: State, i: nat): (j: nat)
    requires i <= |s.doorstep|
    ensures i <= j <= |s.doorstep|
    ensures j < |s.doorstep| ==> s.doorstep[j] in s.provs ==> s.provs[s.doorstep[j]].nstart == s.provs[s.doorstep[j]].nend
    ensures forall k :: i <= k < j ==> s.doorstep[k] in s.provs && s.provs[s.doorstep[k]].nstart != s.provs[s.doorstep[k]].nend
    decreases |s.doorstep| - i
  {
    if i == |s.doorstep| then i
    else if s.doorstep[i] in s.provs && s.provs[s.doorstep[i]].nstart != s.provs[s.doorstep[i]].nend then Quiet(s, i + 1)
    else i
  }

  /** That provider leaves the doorstep and its consumers are told. */
  function HandedOver(s: State): State
    requires Quiet(s, 0) < |s.doorstep|
  {
    var j := Quiet(s, 0);
    s.(doorstep := s.doorstep[..j] + s.doorstep[j + 1..])
  }

  lemma RequestedSound(s: State, b: nat)
    requires Sound(s) && (AtStage(s, b, Idle) || AtStage(s, b, Retry))
    ensures Sound(Requested(s, b))
  {
    Enqueue(s.bios, s.down, b, Down);
    OtherQueue(s.bios, s.up, Up, b, Down);
    OtherQueue(s.bios, s.task, Task, b, Down);
    MoveFlags(s.bios, b, Down);
    BalanceMoved(s.bios, s.provs, b, Down, 1, 0);
  }

  lemma DeliveredSound(s: State, b: nat, error: int)
    requires Sound(s) && AtStage(s, b, Held)
    ensures Sound(Delivered(s, b, error))
  {
    var to := if error == ENOMEM then Retry else Up;
    OtherQueue(s.bios, s.down, Down, b, to);
    OtherQueue(s.bios, s.task, Task, b, to);
    MoveFlags(s.bios, b, to);
    BalanceMoved(s.bios, s.provs, b, to, 0, 1);
    if error == ENOMEM {
      OtherQueue(s.bios, s.up, Up, b, to);
    } else {
      Enqueue(s.bios, s.up, b, Up);
    }
  }

  lemma SameTally(provs: map<nat, Provider>, p: nat)
    requires p in provs
    ensures Tally(provs, p, 0, 0) == provs
  {
  }

  lemma DeferredSound(s: State, b: nat)
    requires Sound(s) && AtStage(s, b, Held)
    ensures Sound(Deferred(s, b))
  {
    Enqueue(s.bios, s.task, b, Task);
    OtherQueue(s.bios, s.up, Up, b, Task);
    OtherQueue(s.bios, s.down, Down, b, Task);
    MoveFlags(s.bios, b, Task);
    BalanceMoved(s.bios, s.provs, b, Task, 0, 0);
    SameTally(s.provs, s.bios[b].to);
  }

  lemma TakenDownSound(s: State)
    requires Sound(s) && s.down != []
    ensures Sound(TakenDown(s)) && AtStage(TakenDown(s), s.down[0], Held)
  {
    var b := s.down[0];
    Dequeue(s.bios, s.down, Down, Held);
    OtherQueue(s.bios, s.up, Up, b, Held);
    OtherQueue(s.bios, s.task, Task, b, Held);
    MoveFlags(s.bios, b, Held);
    BalanceMoved(s.bios, s.provs, b, Held, 0, 0);
    SameTally(s.provs, s.bios[b].to);
  }

  lemma TakenUpSound(s: State)
    requires Sound(s) && s.up != []
    ensures Sound(TakenUp(s))
  {
    var b := s.up[0];
    Dequeue(s.bios, s.up, Up, Idle);
    OtherQueue(s.bios, s.down, Down, b, Idle);
    OtherQueue(s.bios, s.task, Task, b, Idle);
    MoveFlags(s.bios, b, Idle);
    BalanceMoved(s.bios, s.provs, b, Idle, 0, 0);
    SameTally(s.provs, s.bios[b].to);
  }

  lemma TakenTaskSound(s: State)
    requires Sound(s) && s.task != []
    ensures Sound(TakenTask(s))
  {
    var b := s.task[0];
    Dequeue(s.bios, s.task, Task, Held);
    OtherQueue(s.bios, s.up, Up, b, Held);
    OtherQueue(s.bios, s.down, Down, b, Held);
    MoveFlags(s.bios, b, Held);
    BalanceMoved(s.bios, s.provs, b, Held, 0, 0);
    SameTally(s.provs, s.bios[b].to);
  }

  lemma OrphanedSound(s: State, p: nat, error: int)
    requires Sound(s) && p in s.provs && !s.provs[p].orphan
    ensures Sound(Orphaned(s, p, error))
  {
  }

  /** A provider is handed over only when it counts no bio, which is when no bio is with it or on its way down. */
  lemma HandedOverSound(s: State)
    requires Sound(s) && Quiet(s, 0) < |s.doorstep|
    ensures Sound(HandedOver(s))
    ensures InFlight(s.bios, s.doorstep[Quiet(s, 0)]) == {}
  {
    var p := s.doorstep[Quiet(s, 0)];
    assert p in s.provs;
    assert |InFlight(s.bios, p)| == 0;
  }

  /** Nothing asked of a provider is still to come back. */
  ghost predicate AllBack(bios: map<nat, Bio>, p: nat) {
    forall b :: b in bios && bios[b].to == p ==> !Outstanding(bios[b].stage)
  }

  /** Nothing for a provider is between being refused for lack of memory and being requested again. */
  ghost predicate NoRetry(bios: map<nat, Bio>, p: nat) {
    forall b :: b in bios && bios[b].to == p ==> bios[b].stage != Retry
  }

  /** At a hand-over nothing of the provider is outstanding, except what is just being requested again for lack of memory. */
  lemma HandOverQuiet(s: State)
    requires Sound(s) && Quiet(s, 0) < |s.doorstep|
    ensures AllBack(s.bios, s.doorstep[Quiet(s, 0)]) <==> NoRetry(s.bios, s.doorstep[Quiet(s, 0)])
  {
    HandedOverSound(s);
    var p := s.doorstep[Quiet(s, 0)];
    forall b | b in s.bios && s.bios[b].to == p ensures !Counted(s.bios[b].stage) {
      assert b !in InFlight(s.bios, p);
    }
  }

  // Runs.

  /** The steps of consumers, providers, the down, up and event threads; lack of memory makes a delivery and a request. */
  datatype Step = Request(b: nat) | Deliver(b: nat, error: int) | Defer(b: nat) | TakeDown | TakeUp | TakeTask
                | Shorten(b: nat, length: nat) | Orphan(p: nat, error: int) | HandOver

  predicate Enabled(s: State, a: Step) {
    match a
    case Request(b) => AtStage(s, b, Idle) || AtStage(s, b, Retry)
    case Deliver(b, _) => AtStage(s, b, Held)
    case Defer(b) => AtStage(s, b, Held)
    case TakeDown => s.down != [] && s.down[0] in s.bios
    case TakeUp => s.up != [] && s.up[0] in s.bios
    case TakeTask => s.task != [] && s.task[0] in s.bios
    case Shorten(b, _) => AtStage(s, b, Held)
    case Orphan(p, _) => p in s.provs && !s.provs[p].orphan
    case HandOver => Quiet(s, 0) < |s.doorstep|
  }

  function Shortened(s: State, b: nat, length: nat): State
    requires b in s.bios
  {
    s.(bios := s.bios[b := s.bios[b].(io := s.bios[b].io.(length := length))])
  }

  lemma ShortenedSound(s: State, b: nat, length: nat)
    requires Sound(s) && b in s.bios
    ensures Sound(Shortened(s, b, length))
  {
    var t := Shortened(s, b, length);
    forall p | p in s.provs ensures InFlight(t.bios, p) == InFlight(s.bios, p) {
    }
  }

  function Apply(s: State, a: Step): State
    requires Enabled(s, a)
  {
    match a
    case Request(b) => Requested(s, b)
    case Deliver(b, error) => Delivered(s, b, error)
    case Defer(b) => Deferred(s, b)
    case TakeDown => TakenDown(s)
    case TakeUp => TakenUp(s)
    case TakeTask => TakenTask(s)
    case Shorten(b, n) => Shortened(s, b, n)
    case Orphan(p, error) => Orphaned(s, p, error)
    case HandOver => HandedOver(s)
  }

  lemma ApplySound(s: State, a: Step)
    requires Sound(s) && Enabled(s, a)
    ensures Sound(Apply(s, a))
  {
    match a
    case Request(b) => RequestedSound(s, b);
    case Deliver(b, error) => DeliveredSound(s, b, error);
    case Defer(b) => DeferredSound(s, b);
    case TakeDown => TakenDownSound(s);
    case TakeUp => TakenUpSound(s);
    case TakeTask => TakenTaskSound(s);
    case Shorten(b, n) => ShortenedSound(s, b, n);
    case Orphan(p, error) => OrphanedSound(s, p, error);
    case HandOver => HandedOverSound(s);
  }

  /** A run: each state comes from the one before by an enabled step. */
  ghost predicate IsRun(run: seq<State>, steps: seq<Step>) {
    |run| == |steps| + 1
    && forall i {:trigger steps[i]} :: 0 <= i < |steps| ==> Enabled(run[i], steps[i]) && run[i + 1] == Apply(run[i], steps[i])
  }

  /** Every state of every run is sound. */
  lemma {:induction false} RunSound(run: seq<State>, steps: seq<Step>, n: nat)
    requires IsRun(run, steps) && Sound(run[0]) && n < |run|
    ensures Sound(run[n])
  {
    if n > 0 {
      RunSound(run, steps, n - 1);
      var a := steps[n - 1];
      ApplySound(run[n - 1], a);
    }
  }

  /** A provider that has been handed over. */
  ghost predicate Gone(s: State, p: nat) {
    p in s.provs && s.provs[p].orphan && p !in s.doorstep
  }

  lemma HandedOverGone(s: State)
    requires Sound(s) && Quiet(s, 0) < |s.doorstep|
    ensures Gone(HandedOver(s), s.doorstep[Quiet(s, 0)])
  {
    var j := Quiet(s, 0);
    assert s.doorstep[j] in s.doorstep;
    assert forall i :: 0 <= i < |s.doorstep| && i != j ==> s.doorstep[i] != s.doorstep[j];
  }

  lemma StaysGone(s: State, a: Step, p: nat)
    requires Gone(s, p) && Enabled(s, a)
    ensures Gone(Apply(s, a), p)
  {
  }

  /** In every run a provider that was handed over is never on the doorstep again, so it is handed over once. */
  lemma {:induction false} HandedOverOnce(run: seq<State>, steps: seq<Step>, m: nat, n: nat)
    requires IsRun(run, steps) && Sound(run[0]) && m < n < |run| && steps[m] == HandOver
    ensures Gone(run[n], run[m].doorstep[Quiet(run[m], 0)])
    decreases n
  {
    var a := steps[n - 1];
    if n == m + 1 {
      RunSound(run, steps, m);
      HandedOverGone(run[m]);
    } else {
      HandedOverOnce(run, steps, m, n - 1);
      StaysGone(run[n - 1], a, run[m].doorstep[Quiet(run[m], 0)]);
    }
  }

  /** One provider and one bio. */
  function Scene(stage: Stage, nstart: int, nend: int, error: int, down: seq<nat>, doorstep: seq<nat>): State {
    State(map[0 := Bio(Transfer(Read, true, true, 0, 512), 0, stage, Queued(stage))],
          map[0 := Provider(512, 4096, error, error != 0, nstart, nend)], down, [], [], doorstep)
  }

  lemma SceneSound()
    ensures Sound(Scene(Idle, 0, 0, 0, [], []))
  {
    assert InFlight(Scene(Idle, 0, 0, 0, [], []).bios, 0) == {};
  }

  lemma SceneRequest()
    ensures Apply(Scene(Idle, 0, 0, 0, [], []), Request(0)) == Scene(Down, 1, 0, 0, [0], [])
  {
  }

  lemma SceneTake()
    ensures Apply(Scene(Down, 1, 0, 0, [0], []), TakeDown) == Scene(Held, 1, 0, 0, [], [])
  {
  }

  lemma SceneOrphan()
    ensures Apply(Scene(Held, 1, 0, 0, [], []), Orphan(0, ENXIO)) == Scene(Held, 1, 0, ENXIO, [], [0])
  {
  }

  lemma SceneRefuse()
    ensures Apply(Scene(Held, 1, 0, ENXIO, [], [0]), Deliver(0, ENOMEM)) == Scene(Retry, 1, 1, ENXIO, [], [0])
  {
  }

  lemma SceneQuiet()
    ensures var s := Scene(Retry, 1, 1, ENXIO, [], [0]);
            Enabled(s, HandOver) && s.doorstep[Quiet(s, 0)] == 0 && !AllBack(s.bios, 0)
  {
    var s := Scene(Retry, 1, 1, ENXIO, [], [0]);
    assert s.bios[0].stage == Retry;
  }

  /** A run that hands over a provider while a bio refused for lack of memory is about to be requested from it again. */
  lemma HandOverDuringRetry() returns (run: seq<State>, steps: seq<Step>)
    ensures IsRun(run, steps) && Sound(run[0]) && |steps| == 4
    ensures Enabled(run[4], HandOver) && run[4].doorstep[Quiet(run[4], 0)] == 0 && !AllBack(run[4].bios, 0)
  {
    SceneSound();
    SceneRequest();
    SceneTake();
    SceneOrphan();
    SceneRefuse();
    SceneQuiet();
    steps := [Request(0), TakeDown, Orphan(0, ENXIO), Deliver(0, ENOMEM)];
    run := [Scene(Idle, 0, 0, 0, [], []), Scene(Down, 1, 0, 0, [0], []), Scene(Held, 1, 0, 0, [], []),
            Scene(Held, 1, 0, ENXIO, [], [0]), Scene(Retry, 1, 1, ENXIO, [], [0])];
  }

  // The threads.

  datatype Passage = Nothing | Ended(bio: nat, error: int) | Started(bio: nat)

  /** A held bio goes up with the error or, for lack of memory, down again; the provider counts the delivery. */
  function GivenBack(s: State, b: nat, error: int): (t: State)
    requires AtStage(s, b, Held)
    ensures AtStage(t, b, if error == ENOMEM then Down else Up)
    ensures if error == ENOMEM then t.down == s.down + [b] && t.up == s.up else t.up == s.up + [b] && t.down == s.down
  {
    if error == ENOMEM then Requested(Delivered(s, b, ENOMEM), b) else Delivered(s, b, error)
  }

  /** What the down thread does with a bio it holds, and the state it leaves. */
  ghost predicate Passes(s: State, b: nat, r: Passage, t: State)
    requires AtStage(s, b, Held)
  {
    var io, p := s.bios[b].io, s.provs[s.bios[b].to];
    if Check(io, p) != 0 then r == Ended(b, Check(io, p)) && t == GivenBack(s, b, Check(io, p))
    else if Transfers(io.cmd) && Cut(io, p) == 0 then r == Ended(b, 0) && t == GivenBack(Shortened(s, b, 0), b, 0)
    else r == Started(b) && t == Shortened(s, b, Cut(io, p))
  }

  class Io {
    var s: State

    constructor (s: State)
      ensures this.s == s
    {
      this.s := s;
    }

    /** Give a bio back; for lack of memory it is requested again at once. */
    method DeliverBio(b: nat, error: int)
      requires Sound(s) && AtStage(s, b, Held)
      modifies this
      ensures Sound(s)
      ensures s == GivenBack(old(s), b, error)
    {
      DeliveredSound(s, b, error);
      s := Delivered(s, b, error);
      if error == ENOMEM {
        RequestedSound(s, b);
        s := Requested(s, b);
      }
    }

    /** One turn of the down thread: the head of its queue is refused, found empty, or started with its provider. */
    method ScheduleDown() returns (r: Passage)
      requires Sound(s)
      modifies this
      ensures Sound(s) && (r == Nothing <==> old(s).down == []) && (r == Nothing ==> s == old(s))
      ensures r != Nothing ==>
                var held, b := TakenDown(old(s)), old(s).down[0];
                AtStage(held, b, Held) && Passes(held, b, r, s)
    {
      if s.down == [] {
        return Nothing;
      }
      var b := s.down[0];
      TakenDownSound(s);
      s := TakenDown(s);
      r := PassDown(b);
    }

    method PassDown(b: nat) returns (r: Passage)
      requires Sound(s) && AtStage(s, b, Held)
      modifies this
      ensures Sound(s) && r != Nothing
      ensures Passes(old(s), b, r, s)
    {
      var io, p := s.bios[b].io, s.provs[s.bios[b].to];
      var error := Check(io, p);
      if error != 0 {
        DeliverBio(b, error);
        return Ended(b, error);
      }
      var length := Cut(io, p);
      ShortenedSound(s, b, length);
      s := Shortened(s, b, length);
      if Transfers(io.cmd) && length == 0 {
        DeliverBio(b, 0);
        return Ended(b, 0);
      }
      r := Started(b);
    }

    /** The event thread hands over every orphan that counts no bio; the others stay on the doorstep. */
    method HandOverOrphans() returns (handed: seq<nat>)
      requires Sound(s)
      modifies this
      ensures Sound(s) && s.bios == old(s).bios && s.provs == old(s).provs
      ensures forall p :: p in handed ==> p in old(s).provs && InFlight(old(s).bios, p) == {}
      ensures forall p :: p in s.doorstep ==> InFlight(s.bios, p) != {}
      ensures multiset(handed) + multiset(s.doorstep) == multiset(old(s).doorstep)
    {
      handed := [];
      var j := Quiet(s, 0);
      while j < |s.doorstep|
        invariant Sound(s) && s.bios == old(s).bios && s.provs == old(s).provs && j == Quiet(s, 0)
        invariant forall p :: p in handed ==> p in s.provs && InFlight(s.bios, p) == {}
        invariant multiset(handed) + multiset(s.doorstep) == multiset(old(s).doorstep)
        decreases |s.doorstep|
      {
        HandedOverSound(s);
        RemovedBag(s.doorstep, j);
        handed := handed + [s.doorstep[j]];
        s := HandedOver(s);
        j := Quiet(s, 0);
      }
      StillBusy(s);
    }
  }

  lemma RemovedBag(q: seq<nat>, j: nat)
    requires j < |q|
    ensures multiset(q[..j] + q[j + 1..]) == multiset(q) - multiset{q[j]}
  {
    assert q == q[..j] + [q[j]] + q[j + 1..];
  }

  lemma StillBusy(s: State)
    requires Sound(s) && Quiet(s, 0) == |s.doorstep|
    ensures forall p :: p in s.doorstep ==> InFlight(s.bios, p) != {}
  {
    forall p | p in s.doorstep ensures InFlight(s.bios, p) != {} {
      var k :| 0 <= k < |s.doorstep| && s.doorstep[k] == p;
      assert s.provs[s.doorstep[k]].nstart != s.provs[s.doorstep[k]].nend;
    }
  }
}
