/**
 The conversion pipeline of `make_image_db`: a main thread that deals lines out to `n`
 converters, and one worker thread per converter that hands results back through a
 one-slot queue guarded by a mutex and a single condition variable.

 Every lock acquisition, predicate test, sleep, notification and release is a step of its
 own, and a sleeper may also wake for no reason.  A run is a finite sequence of actions.
 */
module ImageConverter {
  import opened Wrappers
  import opened Sums

  datatype Line = Line(file: string, labelId: int)

  /** What is written to the database: the image bytes and the label. */
  datatype Record = Record(image: string, labelId: int)

  /** The input of a run.  `read` gives the contents of a file, or None when it cannot be opened. */
  datatype Job = Job(lines: seq<Line>, n: nat, read: string -> Option<string>)

  datatype Owner = Free | ByMain | ByWorker

  /** Program points of `Converter::run`. */
  datatype WorkerPc =
    | Unstarted
    | LockTop                    // about to take the lock on entry
    | Top                        // holds the lock, at the loop test
    | Converting(line: Line)     // popped a line, lock released
    | LockOut(value: Record)     // about to retake the lock
    | CheckOut(value: Record)    // holds the lock, testing that the out queue is empty
    | AsleepOut(value: Record)   // inside cv_.wait
    | NotifyOut                  // pushed, holds the lock, about to notify
    | Exited

  datatype Converter = Converter(inQ: seq<Line>, outQ: seq<Record>, owner: Owner, pc: WorkerPc, image: string)

  /** Program points of `ConvertImageDataset` after the queues are filled. */
  datatype MainPc =
    | Starting(next: nat)
    | LockGet(i: nat)
    | CheckGet(i: nat)
    | AsleepGet(i: nat)
    | NotifyGet(i: nat, value: Record)
    | ReleaseGet(i: nat, value: Record)
    | Put(i: nat, value: Record)
    | Joining(next: nat)
    | Finished

  datatype State = State(main: MainPc, convs: seq<Converter>, db: seq<Record>)

  datatype Thread = Main | Worker(c: nat)

  /** `Go` is an ordinary step of a thread; `Wake` is a spurious return from `cv_.wait`. */
  datatype Action = Go(thread: Thread) | Wake(thread: Thread)

  // ------------------------------------------------------------------ filling the queues

  /** The lines that converter `c` has been dealt once the first `i` lines are queued. */
  function Dealt(lines: seq<Line>, n: nat, c: nat, i: nat): seq<Line>
    requires n > 0 && i <= |lines|
  {
    if i == 0 then [] else
      Dealt(lines, n, c, i - 1) + (if (i - 1) % n == c then [lines[i - 1]] else [])
  }

  function Queue(job: Job, c: nat): seq<Line>
    requires job.n > 0
  {
    Dealt(job.lines, job.n, c, |job.lines|)
  }

  /** The queueing loop of `ConvertImageDataset`. */
  method QueueLines(lines: seq<Line>, n: nat) returns (queues: seq<seq<Line>>)
    requires n > 0
    ensures |queues| == n
    ensures forall c :: 0 <= c < n ==> queues[c] == Dealt(lines, n, c, |lines|)
  {
    queues := seq(n, _ => []);
    for i := 0 to |lines|
      invariant |queues| == n
      invariant forall c :: 0 <= c < n ==> queues[c] == Dealt(lines, n, c, i)
    {
      queues := queues[i % n := queues[i % n] + [lines[i]]];
    }
  }

  lemma {:induction false} DealtPrefix(lines: seq<Line>, n: nat, c: nat, i: nat, j: nat)
    requires n > 0 && i <= j <= |lines|
    ensures Dealt(lines, n, c, i) <= Dealt(lines, n, c, j)
    decreases j
  {
    if i < j {
      DealtPrefix(lines, n, c, i, j - 1);
    }
  }

  /** Line `i` sits in the queue of converter `i % n`, at the position counted by the lines dealt before it. */
  lemma DealtAt(lines: seq<Line>, n: nat, i: nat)
    requires n > 0 && i < |lines|
    ensures var c := i % n;
            var before := |Dealt(lines, n, c, i)|;
            && |Dealt(lines, n, c, i + 1)| == before + 1
            && before < |Dealt(lines, n, c, |lines|)|
            && Dealt(lines, n, c, |lines|)[before] == lines[i]
  {
    DealtPrefix(lines, n, i % n, i + 1, |lines|);
  }

  lemma NotMultiple(n: nat, k: int, d: nat)
    requires 0 < d < n
    ensures k * n != d
  {
    if k >= 1 {
      assert k * n >= n by { assert (k - 1) * n >= 0; }
    } else {
      assert k * n <= 0;
    }
  }

  lemma DivMod(n: nat, i: nat)
    requires n > 0
    ensures i == (i / n) * n + i % n
  {
  }

  lemma ModUnique(n: nat, i: nat, d: nat)
    requires 0 < d < n
    ensures (i + d) % n != i % n
  {
    var a, b := (i + d) / n, i / n;
    DivMod(n, i + d);
    DivMod(n, i);
    if (i + d) % n == i % n {
      assert a * n - b * n == d;
      assert (a - b) * n == a * n - b * n;
      NotMultiple(n, a - b, d);
    }
  }

  /** Nothing is dealt to `i % n` between line `i` and line `i + n`. */
  lemma {:induction false} DealtGap(lines: seq<Line>, n: nat, i: nat, d: nat)
    requires n > 0 && d < n && i + 1 + d <= |lines|
    ensures Dealt(lines, n, i % n, i + 1 + d) == Dealt(lines, n, i % n, i + 1)
  {
    if d > 0 {
      DealtGap(lines, n, i, d - 1);
      ModUnique(n, i, d);
    }
  }

  /** Nothing is dealt to converter `c` before line `c`. */
  lemma {:induction false} DealtStart(lines: seq<Line>, n: nat, c: nat, i: nat)
    requires n > 0 && i <= c < n && i <= |lines|
    ensures Dealt(lines, n, c, i) == []
  {
    if i > 0 {
      SmallMod(n, i - 1);
      DealtStart(lines, n, c, i - 1);
    }
  }

  // ------------------------------------------------------------------ what a worker computes

  /** The bytes held in `data_` after the first `k` lines of queue `q` were converted. */
  function ImageAfter(read: string -> Option<string>, q: seq<Line>, k: nat): string
    requires k <= |q|
  {
    if k == 0 then "" else
      match read(q[k - 1].file)
      case Some(bytes) => bytes
      case None => ImageAfter(read, q, k - 1)
  }

  function RecordOf(read: string -> Option<string>, q: seq<Line>, k: nat): Record
    requires k < |q|
  {
    Record(ImageAfter(read, q, k + 1), q[k].labelId)
  }

  /** The record delivered for line `i`. */
  function Expected(job: Job, i: nat): Record
    requires job.n > 0 && i < |job.lines|
  {
    DealtAt(job.lines, job.n, i);
    RecordOf(job.read, Queue(job, i % job.n), |Dealt(job.lines, job.n, i % job.n, i)|)
  }

  // ------------------------------------------------------------------ the steps

  function Init(job: Job): State
    requires job.n > 0
  {
    State(Starting(0), seq(job.n, c requires 0 <= c => Converter(Queue(job, c), [], Free, Unstarted, "")), [])
  }

  /** One step of a worker on its own converter, or None where it is blocked. */
  function WorkerStep(read: string -> Option<string>, v: Converter): Option<Converter> {
    match v.pc
    case Unstarted => None
    case LockTop => if v.owner.Free? then Some(v.(owner := ByWorker, pc := Top)) else None
    case Top =>
      if v.inQ == [] then Some(v.(owner := Free, pc := Exited))
      else Some(v.(inQ := v.inQ[1..], owner := Free, pc := Converting(v.inQ[0])))
    case Converting(line) =>
      var image := match read(line.file) case Some(bytes) => bytes case None => v.image;
      Some(v.(image := image, pc := LockOut(Record(image, line.labelId))))
    case LockOut(value) => if v.owner.Free? then Some(v.(owner := ByWorker, pc := CheckOut(value))) else None
    case CheckOut(value) =>
      if v.outQ != [] then Some(v.(owner := Free, pc := AsleepOut(value)))
      else Some(v.(outQ := v.outQ + [value], pc := NotifyOut))
    case AsleepOut(_) => None
    case NotifyOut => Some(v.(pc := Top))
    case Exited => None
  }

  function AwakenWorker(v: Converter): Converter {
    if v.pc.AsleepOut? then v.(pc := LockOut(v.pc.value)) else v
  }

  function AwakenMain(main: MainPc, c: nat, n: nat): MainPc
    requires n > 0
  {
    if main.AsleepGet? && main.i % n == c then LockGet(main.i) else main
  }

  /** The head of the consuming loop. */
  function NextGet(job: Job, i: nat): MainPc {
    if i < |job.lines| then LockGet(i) else Joining(0)
  }

  ghost predicate Shape(job: Job, s: State) {
    job.n > 0 && |s.convs| == job.n
  }

  function MainStep(job: Job, s: State): Option<State>
    requires Shape(job, s)
  {
    match s.main
    case Starting(c) =>
      if c < job.n then Some(s.(main := Starting(c + 1), convs := s.convs[c := s.convs[c].(pc := LockTop)]))
      else Some(s.(main := NextGet(job, 0)))
    case LockGet(i) =>
      var c := i % job.n;
      if s.convs[c].owner.Free?
      then Some(s.(main := CheckGet(i), convs := s.convs[c := s.convs[c].(owner := ByMain)])) else None
    case CheckGet(i) =>
      var c := i % job.n;
      var v := s.convs[c];
      if v.outQ == [] then Some(s.(main := AsleepGet(i), convs := s.convs[c := v.(owner := Free)]))
      else Some(s.(main := NotifyGet(i, v.outQ[0]), convs := s.convs[c := v.(outQ := v.outQ[1..])]))
    case AsleepGet(_) => None
    case NotifyGet(i, value) =>
      var c := i % job.n;
      Some(s.(main := ReleaseGet(i, value), convs := s.convs[c := AwakenWorker(s.convs[c])]))
    case ReleaseGet(i, value) =>
      var c := i % job.n;
      Some(s.(main := Put(i, value), convs := s.convs[c := s.convs[c].(owner := Free)]))
    case Put(i, value) => Some(s.(main := NextGet(job, i + 1), db := s.db + [value]))
    case Joining(c) =>
      if c >= job.n then Some(s.(main := Finished))
      else if s.convs[c].pc.Exited? then Some(s.(main := Joining(c + 1))) else None
    case Finished => None
  }

  /** A worker step seen from the whole system.  `notify_one` can only wake the main thread:
      the other possible sleeper on this condition variable is the notifying worker itself. */
  function GoWorker(job: Job, s: State, c: nat): Option<State>
    requires Shape(job, s) && c < job.n
  {
    match WorkerStep(job.read, s.convs[c])
    case None => None
    case Some(v) =>
      var main := if s.convs[c].pc.NotifyOut? then AwakenMain(s.main, c, job.n) else s.main;
      Some(s.(main := main, convs := s.convs[c := v]))
  }

  function Step(job: Job, s: State, a: Action): Option<State>
    requires Shape(job, s)
  {
    match a
    case Go(Main) => MainStep(job, s)
    case Go(Worker(c)) => if c < job.n then GoWorker(job, s, c) else None
    case Wake(Main) => if s.main.AsleepGet? then Some(s.(main := LockGet(s.main.i))) else None
    case Wake(Worker(c)) =>
      if c < job.n && s.convs[c].pc.AsleepOut? then Some(s.(convs := s.convs[c := AwakenWorker(s.convs[c])])) else None
  }

  lemma StepShape(job: Job, s: State, a: Action)
    requires Shape(job, s)
    ensures Step(job, s, a).Some? ==> Shape(job, Step(job, s, a).value)
  {
  }

  /** The state reached from `s` by a sequence of actions, or None when one of them was not possible. */
  function Exec(job: Job, s: State, run: seq<Action>): (r: Option<State>)
    requires Shape(job, s)
    ensures r.Some? ==> Shape(job, r.value)
    decreases |run|
  {
    if run == [] then Some(s) else
      StepShape(job, s, run[0]);
      match Step(job, s, run[0])
      case None => None
      case Some(s') => Exec(job, s', run[1..])
  }

  function Run(job: Job, run: seq<Action>): Option<State>
    requires job.n > 0
  {
    Exec(job, Init(job), run)
  }

  // ------------------------------------------------------------------ the invariant

  /** How many results the main thread has taken from converter `c`. */
  function Taken(job: Job, main: MainPc, c: nat): nat
    requires job.n > 0 && MainOk(job, main)
  {
    match main
    case Starting(_) => 0
    case LockGet(i) => |Dealt(job.lines, job.n, c, i)|
    case CheckGet(i) => |Dealt(job.lines, job.n, c, i)|
    case AsleepGet(i) => |Dealt(job.lines, job.n, c, i)|
    case NotifyGet(i, _) => |Dealt(job.lines, job.n, c, i + 1)|
    case ReleaseGet(i, _) => |Dealt(job.lines, job.n, c, i + 1)|
    case Put(i, _) => |Dealt(job.lines, job.n, c, i + 1)|
    case Joining(_) => |Queue(job, c)|
    case Finished => |Queue(job, c)|
  }

  predicate MainHolds(main: MainPc, c: nat, n: nat)
    requires n > 0
  {
    (main.CheckGet? || main.NotifyGet? || main.ReleaseGet?) && main.i % n == c
  }

  predicate MainAsleep(main: MainPc, c: nat, n: nat)
    requires n > 0
  {
    main.AsleepGet? && main.i % n == c
  }

  predicate MainNotifying(main: MainPc, c: nat, n: nat)
    requires n > 0
  {
    main.NotifyGet? && main.i % n == c
  }

  predicate HasValue(pc: WorkerPc) {
    pc.LockOut? || pc.CheckOut? || pc.AsleepOut?
  }

  /** The main thread's own data: the result in hand is the one expected for its line. */
  ghost predicate MainOk(job: Job, main: MainPc)
    requires job.n > 0
  {
    match main
    case Starting(c) => c <= job.n
    case LockGet(i) => i < |job.lines|
    case CheckGet(i) => i < |job.lines|
    case AsleepGet(i) => i < |job.lines|
    case NotifyGet(i, value) => i < |job.lines| && value == Expected(job, i)
    case ReleaseGet(i, value) => i < |job.lines| && value == Expected(job, i)
    case Put(i, value) => i < |job.lines| && value == Expected(job, i)
    case Joining(c) => c <= job.n
    case Finished => true
  }

  /** The number of records written so far. */
  function Written(job: Job, main: MainPc): nat {
    match main
    case Starting(_) => 0
    case Joining(_) => |job.lines|
    case Finished => |job.lines|
    case _ => main.i
  }

  /** How many lines of its queue a converter has finished and handed to its out queue. */
  function Produced(q: seq<Line>, v: Converter): int {
    |q| - |v.inQ| - (if v.pc.Converting? || HasValue(v.pc) then 1 else 0)
  }

  /** The state of one converter, given its whole queue `q` and how many results were taken from it. */
  ghost predicate ConverterOk(read: string -> Option<string>, q: seq<Line>, taken: nat, v: Converter) {
    var consumed := |q| - |v.inQ|;
    var produced := Produced(q, v);
    && 0 <= produced
    && v.inQ == q[consumed..]
    && v.image == ImageAfter(read, q, if v.pc.Converting? then consumed - 1 else consumed)
    && (v.pc.Converting? ==> v.pc.line == q[consumed - 1])
    && (HasValue(v.pc) ==> v.pc.value == RecordOf(read, q, consumed - 1))
    && taken <= produced <= taken + 1
    && v.outQ == (if produced == taken then [] else [RecordOf(read, q, taken)])
    && (v.pc.Exited? ==> v.inQ == [])
    && (v.pc.NotifyOut? ==> v.outQ != [])
  }

  /** Who holds the mutex, and that nobody sleeps through a change it is waiting for. */
  ghost predicate LockOk(v: Converter, main: MainPc, c: nat, n: nat)
    requires n > 0
  {
    && (v.pc.Unstarted? <==> main.Starting? && main.next <= c)
    && (v.owner.ByMain? <==> MainHolds(main, c, n))
    && (v.owner.ByWorker? <==> v.pc.Top? || v.pc.CheckOut? || v.pc.NotifyOut?)
    && (MainAsleep(main, c, n) ==> v.outQ == [] || v.pc.NotifyOut?)
    && (v.pc.AsleepOut? ==> v.outQ != [] || MainNotifying(main, c, n))
  }

  ghost predicate At(job: Job, s: State, c: nat)
    requires Shape(job, s) && c < job.n && MainOk(job, s.main)
  {
    && ConverterOk(job.read, Queue(job, c), Taken(job, s.main, c), s.convs[c])
    && LockOk(s.convs[c], s.main, c, job.n)
  }

  ghost predicate Inv(job: Job, s: State) {
    && Shape(job, s)
    && MainOk(job, s.main)
    && (forall c :: 0 <= c < job.n ==> At(job, s, c))
    && |s.db| == Written(job, s.main) <= |job.lines|
    && (forall i :: 0 <= i < |s.db| ==> s.db[i] == Expected(job, i))
    && (s.main.Joining? ==> forall c :: 0 <= c < s.main.next ==> s.convs[c].pc.Exited?)
    && (s.main.Finished? ==> forall c :: 0 <= c < job.n ==> s.convs[c].pc.Exited?)
  }

  lemma InitInv(job: Job)
    requires job.n > 0
    ensures Inv(job, Init(job))
  {
  }

  /** A worker popping its next line. */
  lemma PopKeeps(read: string -> Option<string>, q: seq<Line>, taken: nat, v: Converter, v': Converter)
    requires ConverterOk(read, q, taken, v) && WorkerStep(read, v) == Some(v') && v.pc.Top?
    ensures ConverterOk(read, q, taken, v')
  {
    hide ImageAfter, RecordOf;
    var consumed := |q| - |v.inQ|;
    if v.inQ != [] {
      assert v'.inQ == q[consumed + 1..];
      assert v'.pc.line == q[consumed];
    }
  }

  /** A worker converting a line, whether or not its file opens. */
  lemma ConvertKeeps(read: string -> Option<string>, q: seq<Line>, taken: nat, v: Converter, v': Converter)
    requires ConverterOk(read, q, taken, v) && WorkerStep(read, v) == Some(v') && v.pc.Converting?
    ensures ConverterOk(read, q, taken, v')
  {
    assert v'.image == ImageAfter(read, q, |q| - |v.inQ|);
  }

  /** A worker step keeps its converter's half of the invariant. */
  lemma WorkerKeeps(read: string -> Option<string>, q: seq<Line>, taken: nat, v: Converter, v': Converter)
    requires ConverterOk(read, q, taken, v) && WorkerStep(read, v) == Some(v')
    ensures ConverterOk(read, q, taken, v')
  {
    if v.pc.Top? {
      PopKeeps(read, q, taken, v, v');
    } else if v.pc.Converting? {
      ConvertKeeps(read, q, taken, v, v');
    } else {
      assert v'.image == v.image && v'.inQ == v.inQ;
      assert Produced(q, v') == Produced(q, v) + (if v'.pc.NotifyOut? then 1 else 0);
    }
  }

  lemma WorkerLock(read: string -> Option<string>, v: Converter, v': Converter, main: MainPc, c: nat, n: nat)
    requires n > 0 && LockOk(v, main, c, n) && WorkerStep(read, v) == Some(v')
    requires v.pc.NotifyOut? ==> v.outQ != []
    ensures LockOk(v', if v.pc.NotifyOut? then AwakenMain(main, c, n) else main, c, n)
  {
  }

  /** Waking the main thread at converter `c` is invisible to every other converter, and changes no count. */
  lemma AwakenFrame(job: Job, main: MainPc, c: nat, d: nat, v: Converter)
    requires job.n > 0 && MainOk(job, main)
    ensures MainOk(job, AwakenMain(main, c, job.n))
    ensures Taken(job, AwakenMain(main, c, job.n), d) == Taken(job, main, d)
    ensures Written(job, AwakenMain(main, c, job.n)) == Written(job, main)
    ensures d != c && LockOk(v, main, d, job.n) ==> LockOk(v, AwakenMain(main, c, job.n), d, job.n)
  {
  }

  lemma WorkerStepInv(job: Job, s: State, c: nat, s': State)
    requires Inv(job, s) && c < job.n && GoWorker(job, s, c) == Some(s')
    ensures Inv(job, s')
  {
    assert At(job, s, c);
    var v, v' := s.convs[c], s'.convs[c];
    WorkerKeeps(job.read, Queue(job, c), Taken(job, s.main, c), v, v');
    WorkerLock(job.read, v, v', s.main, c, job.n);
    AwakenFrame(job, s.main, c, c, v);
    forall d | 0 <= d < job.n ensures At(job, s', d) {
      assert At(job, s, d);
      AwakenFrame(job, s.main, c, d, s.convs[d]);
    }
  }

  /** Taking the result of line `i` advances exactly the count of converter `i % n`. */
  lemma TakenStep(job: Job, i: nat, d: nat)
    requires job.n > 0 && i < |job.lines|
    ensures |Dealt(job.lines, job.n, d, i + 1)| ==
            |Dealt(job.lines, job.n, d, i)| + (if d == i % job.n then 1 else 0)
  {
  }

  /** Popping the slot: the value popped is the one expected for line `i`. */
  lemma PopInv(job: Job, s: State, s': State)
    requires Inv(job, s) && s.main.CheckGet? && MainStep(job, s) == Some(s')
    ensures Inv(job, s')
  {
    hide ImageAfter, RecordOf;
    var i := s.main.i;
    var c := i % job.n;
    assert At(job, s, c);
    DealtAt(job.lines, job.n, i);
    assert MainOk(job, s'.main);
    forall d | 0 <= d < job.n ensures At(job, s', d) {
      assert At(job, s, d);
      TakenStep(job, i, d);
    }
  }

  /** The other steps of the main thread move no result in or out of a converter. */
  lemma MainStepInv(job: Job, s: State, s': State)
    requires Inv(job, s) && !s.main.CheckGet? && MainStep(job, s) == Some(s')
    ensures Inv(job, s')
  {
    assert MainOk(job, s'.main);
    forall d | 0 <= d < job.n ensures At(job, s', d) {
      assert At(job, s, d);
      MainFrame(job, s, s', d);
    }
  }

  lemma MainFrameTaken(job: Job, s: State, s': State, d: nat)
    requires Shape(job, s) && MainOk(job, s.main) && MainOk(job, s'.main)
    requires !s.main.CheckGet? && MainStep(job, s) == Some(s')
    ensures Taken(job, s'.main, d) == Taken(job, s.main, d)
  {
    if s.main.Starting? && s.main.next == job.n && |job.lines| == 0 {
      assert Queue(job, d) == [];
    }
  }

  /** A converter whose queues and image are untouched, and whose worker was at most started or woken. */
  lemma ConverterFrame(read: string -> Option<string>, q: seq<Line>, taken: nat, v: Converter, v': Converter)
    requires ConverterOk(read, q, taken, v)
    requires v'.inQ == v.inQ && v'.outQ == v.outQ && v'.image == v.image
    requires v'.pc == v.pc || v' == AwakenWorker(v) || (v.pc.Unstarted? && v'.pc.LockTop?)
    ensures ConverterOk(read, q, taken, v')
  {
    assert Produced(q, v') == Produced(q, v);
  }

  lemma MainFrameLock(job: Job, s: State, s': State, d: nat)
    requires Shape(job, s) && d < job.n && LockOk(s.convs[d], s.main, d, job.n)
    requires !s.main.CheckGet? && MainStep(job, s) == Some(s')
    ensures LockOk(s'.convs[d], s'.main, d, job.n)
  {
  }

  lemma MainFrame(job: Job, s: State, s': State, d: nat)
    requires Shape(job, s) && MainOk(job, s.main) && d < job.n && At(job, s, d)
    requires !s.main.CheckGet? && MainStep(job, s) == Some(s') && MainOk(job, s'.main)
    ensures At(job, s', d)
  {
    MainFrameTaken(job, s, s', d);
    MainFrameLock(job, s, s', d);
    ConverterFrame(job.read, Queue(job, d), Taken(job, s.main, d), s.convs[d], s'.convs[d]);
  }

  lemma WakeInv(job: Job, s: State, t: Thread, s': State)
    requires Inv(job, s) && Step(job, s, Wake(t)) == Some(s')
    ensures Inv(job, s')
  {
    assert MainOk(job, s'.main);
    forall d | 0 <= d < job.n ensures At(job, s', d) {
      assert At(job, s, d);
      ConverterFrame(job.read, Queue(job, d), Taken(job, s.main, d), s.convs[d], s'.convs[d]);
    }
  }

  lemma StepInv(job: Job, s: State, a: Action, s': State)
    requires Inv(job, s) && Step(job, s, a) == Some(s')
    ensures Inv(job, s')
  {
    match a
    case Go(Main) =>
      if s.main.CheckGet? { PopInv(job, s, s'); } else { MainStepInv(job, s, s'); }
    case Go(Worker(c)) => WorkerStepInv(job, s, c, s');
    case Wake(t) => WakeInv(job, s, t, s');
  }

  lemma {:induction false} ExecInv(job: Job, s: State, run: seq<Action>)
    requires Inv(job, s)
    ensures Exec(job, s, run).Some? ==> Inv(job, Exec(job, s, run).value)
    decreases |run|
  {
    if run != [] {
      var next := Step(job, s, run[0]);
      if next.Some? {
        StepInv(job, s, run[0], next.value);
        ExecInv(job, next.value, run[1..]);
      }
    }
  }

  /** Every state of every run satisfies the invariant. */
  lemma RunInv(job: Job, run: seq<Action>)
    requires job.n > 0
    ensures Run(job, run).Some? ==> Inv(job, Run(job, run).value)
  {
    InitInv(job);
    ExecInv(job, Init(job), run);
  }

  // ------------------------------------------------------------------ safety

  /** Line `i` directly follows line `i - n` in its queue, and is first in it when `i < n`. */
  lemma DealtNeighbour(lines: seq<Line>, n: nat, i: nat)
    requires n > 0 && i < |lines|
    ensures i < n ==> Dealt(lines, n, i % n, i) == []
    ensures i >= n ==> (i - n) % n == i % n &&
                       |Dealt(lines, n, i % n, i)| == |Dealt(lines, n, i % n, i - n)| + 1
  {
    if i < n {
      SmallMod(n, i);
      DealtStart(lines, n, i, i);
    } else {
      var j, c := i - n, i % n;
      assert j % n == c by { ShiftMod(n, j); }
      assert Dealt(lines, n, c, i) == Dealt(lines, n, c, j + 1) by {
        DealtGap(lines, n, j, n - 1);
        assert j + 1 + (n - 1) == i;
      }
      assert |Dealt(lines, n, c, j + 1)| == |Dealt(lines, n, c, j)| + 1 by { DealtAt(lines, n, j); }
    }
  }

  lemma ExpectedMeaning(job: Job, i: nat)
    requires job.n > 0 && i < |job.lines|
    ensures Expected(job, i).labelId == job.lines[i].labelId
    ensures Expected(job, i).image ==
            match job.read(job.lines[i].file)
            case Some(bytes) => bytes
            case None => if i < job.n then "" else Expected(job, i - job.n).image
  {
    DealtAt(job.lines, job.n, i);
    DealtNeighbour(job.lines, job.n, i);
    var q, k := Queue(job, i % job.n), |Dealt(job.lines, job.n, i % job.n, i)|;
    assert q[k] == job.lines[i];
    assert Expected(job, i) == RecordOf(job.read, q, k);
    if i < job.n {
      assert ImageAfter(job.read, q, k) == "";
    } else {
      DealtAt(job.lines, job.n, i - job.n);
      assert Expected(job, i - job.n) == RecordOf(job.read, q, k - 1);
    }
  }

  lemma SmallMod(n: nat, i: nat)
    requires i < n
    ensures i % n == i
  {
    DivMod(n, i);
    assert i / n >= 0;
  }

  lemma ShiftMod(n: nat, j: nat)
    requires n > 0
    ensures (j + n) % n == j % n
  {
    DivMod(n, j + n);
    DivMod(n, j);
    var a, b := (j + n) / n, j / n;
    var d := (j + n) % n - j % n;
    assert (b + 1 - a) * n == d by { assert (b + 1 - a) * n == b * n + n - a * n; }
    if d > 0 {
      NotMultiple(n, b + 1 - a, d);
    } else if d < 0 {
      assert (a - b - 1) * n == -d by { assert (a - b - 1) * n == a * n - b * n - n; }
      NotMultiple(n, a - b - 1, -d);
    }
  }

  /** Under every interleaving the i-th record written is the conversion of line i: its own label and,
      when its file opens, its own bytes.  A file that does not open is not skipped: its record repeats
      the image of the record `n` places earlier, or the empty image when there is none. */
  lemma DeliveredInOrder(job: Job, run: seq<Action>, s: State, i: nat)
    requires job.n > 0 && Run(job, run) == Some(s) && i < |s.db|
    ensures |s.db| <= |job.lines|
    ensures s.db[i].labelId == job.lines[i].labelId
    ensures s.db[i].image ==
            match job.read(job.lines[i].file)
            case Some(bytes) => bytes
            case None => if i < job.n then "" else s.db[i - job.n].image
  {
    RunInv(job, run);
    ExpectedMeaning(job, i);
  }

  /** Exactly-once hand-off: at any moment a converter's queue splits into what the main thread has taken,
      the at most one result in the slot, the at most one line in the worker's hands, and the rest. */
  lemma ExactlyOnce(job: Job, run: seq<Action>, s: State, c: nat)
    requires job.n > 0 && Run(job, run) == Some(s) && c < job.n
    ensures MainOk(job, s.main)
    ensures |s.convs[c].outQ| <= 1
    ensures Taken(job, s.main, c) + |s.convs[c].outQ|
            + (if s.convs[c].pc.Converting? || HasValue(s.convs[c].pc) then 1 else 0)
            + |s.convs[c].inQ| == |Queue(job, c)|
    ensures s.convs[c].inQ == Queue(job, c)[|Queue(job, c)| - |s.convs[c].inQ|..]
  {
    RunInv(job, run);
    assert At(job, s, c);
  }

  /** Every record carries its own file's bytes exactly when every file opens. */
  lemma FaithfulIffAllOpen(job: Job, run: seq<Action>, s: State)
    requires job.n > 0 && Run(job, run) == Some(s) && s.main.Finished?
    ensures |s.db| == |job.lines|
    ensures (forall i :: 0 <= i < |s.db| ==> job.read(job.lines[i].file) == Some(s.db[i].image))
            <==> (forall i :: 0 <= i < |job.lines| ==> job.read(job.lines[i].file).Some?)
  {
    RunInv(job, run);
    forall i | 0 <= i < |s.db| && job.read(job.lines[i].file).Some?
      ensures job.read(job.lines[i].file) == Some(s.db[i].image)
    {
      DeliveredInOrder(job, run, s, i);
    }
  }

  // ------------------------------------------------------------------ no deadlock, no lost wakeup

  /** A sleeper's condition is still false, or its partner is already committed to notifying it;
      so the two threads of a converter never sleep at the same time. */
  lemma NoLostWakeup(job: Job, run: seq<Action>, s: State, c: nat)
    requires job.n > 0 && Run(job, run) == Some(s) && c < job.n
    ensures MainAsleep(s.main, c, job.n) ==> s.convs[c].outQ == [] || s.convs[c].pc.NotifyOut?
    ensures s.convs[c].pc.AsleepOut? ==> s.convs[c].outQ != [] || MainNotifying(s.main, c, job.n)
    ensures !(MainAsleep(s.main, c, job.n) && s.convs[c].pc.AsleepOut?)
  {
    RunInv(job, run);
    assert At(job, s, c);
  }

  /** A worker that still owes the main thread a result, or has only to exit, can move
      whenever the main thread does not hold its lock. */
  lemma WorkerMoves(job: Job, s: State, c: nat)
    requires Inv(job, s) && c < job.n && !s.convs[c].owner.ByMain?
    requires !s.convs[c].pc.Unstarted? && !s.convs[c].pc.Exited? && !s.convs[c].pc.AsleepOut?
    ensures Step(job, s, Go(Worker(c))).Some?
  {
    assert At(job, s, c);
  }

  /** In every reachable unfinished state some thread can take an ordinary step. */
  lemma Progress(job: Job, s: State) returns (t: Thread)
    requires Inv(job, s) && !s.main.Finished?
    ensures Step(job, s, Go(t)).Some?
  {
    t := Main;
    match s.main
    case LockGet(i) =>
      var c := i % job.n;
      assert At(job, s, c);
      if !s.convs[c].owner.Free? {
        t := Worker(c);
      }
    case AsleepGet(i) =>
      var c := i % job.n;
      assert At(job, s, c);
      DealtAt(job.lines, job.n, i);
      WorkerMoves(job, s, c);
      t := Worker(c);
    case Joining(c) =>
      if c < job.n && !s.convs[c].pc.Exited? {
        assert At(job, s, c);
        WorkerMoves(job, s, c);
        t := Worker(c);
      }
    case _ =>
  }

  function WorkerRank(pc: WorkerPc): nat {
    match pc
    case Unstarted => 3
    case LockTop => 2
    case Top => 1
    case Converting(_) => 12
    case LockOut(_) => 11
    case CheckOut(_) => 10
    case AsleepOut(_) => 9
    case NotifyOut => 5
    case Exited => 0
  }

  function WorkerMeasure(v: Converter): nat {
    12 * |v.inQ| + WorkerRank(v.pc)
  }

  function MainMeasure(job: Job, main: MainPc): int {
    match main
    case Starting(c) => 2 * job.n - c + 12 * |job.lines| + 12
    case LockGet(i) => job.n + 12 * (|job.lines| - i) + 11
    case CheckGet(i) => job.n + 12 * (|job.lines| - i) + 10
    case AsleepGet(i) => job.n + 12 * (|job.lines| - i) + 9
    case NotifyGet(i, _) => job.n + 12 * (|job.lines| - i) + 7
    case ReleaseGet(i, _) => job.n + 12 * (|job.lines| - i) + 4
    case Put(i, _) => job.n + 12 * (|job.lines| - i) + 3
    case Joining(c) => job.n - c + 1
    case Finished => 0
  }

  /** The number of ordinary steps that can still happen if nobody wakes spuriously. */
  function Measure(job: Job, s: State): int {
    MainMeasure(job, s.main) + Sum(WorkerMeasure, s.convs)
  }

  lemma WorkerStepMeasure(read: string -> Option<string>, v: Converter, v': Converter)
    requires WorkerStep(read, v) == Some(v')
    ensures WorkerMeasure(v') <= WorkerMeasure(v) - (if v.pc.NotifyOut? then 4 else 1)
  {
  }

  /** The converter a step of the main thread touches. */
  function Touched(job: Job, main: MainPc): nat
    requires job.n > 0
  {
    match main
    case Starting(c) => if c < job.n then c else 0
    case Joining(c) => 0
    case Finished => 0
    case _ => main.i % job.n
  }

  lemma MainStepMeasure(job: Job, s: State, s': State)
    requires Inv(job, s) && MainStep(job, s) == Some(s')
    ensures var c := Touched(job, s.main);
            && s'.convs == s.convs[c := s'.convs[c]]
            && MainMeasure(job, s'.main) + WorkerMeasure(s'.convs[c])
               < MainMeasure(job, s.main) + WorkerMeasure(s.convs[c])
  {
    assert At(job, s, Touched(job, s.main));
  }

  /** Every ordinary step uses up the measure; a spurious wake-up gives back at most two. */
  lemma StepMeasure(job: Job, s: State, a: Action, s': State)
    requires Inv(job, s) && Step(job, s, a) == Some(s')
    ensures Measure(job, s') <= Measure(job, s) + (if a.Go? then -1 else 2)
  {
    match a
    case Go(Main) =>
      MainStepMeasure(job, s, s');
      var c := Touched(job, s.main);
      SumUpdate(WorkerMeasure, s.convs, c, s'.convs[c]);
    case Go(Worker(c)) =>
      WorkerStepMeasure(job.read, s.convs[c], s'.convs[c]);
      SumUpdate(WorkerMeasure, s.convs, c, s'.convs[c]);
    case Wake(Main) =>
    case Wake(Worker(c)) =>
      SumUpdate(WorkerMeasure, s.convs, c, s'.convs[c]);
  }

  function Steps(run: seq<Action>): nat {
    Sum((a: Action) => if a.Go? then 1 else 0, run)
  }

  function Wakes(run: seq<Action>): nat {
    Sum((a: Action) => if a.Go? then 0 else 1, run)
  }

  lemma {:induction false} ExecMeasure(job: Job, s: State, run: seq<Action>)
    requires Inv(job, s) && Exec(job, s, run).Some?
    ensures Steps(run) + Measure(job, Exec(job, s, run).value) <= Measure(job, s) + 2 * Wakes(run)
    decreases |run|
  {
    if run != [] {
      var s' := Step(job, s, run[0]).value;
      StepInv(job, s, run[0], s');
      StepMeasure(job, s, run[0], s');
      ExecMeasure(job, s', run[1..]);
    }
  }

  lemma MeasureNonnegative(job: Job, s: State)
    requires Inv(job, s)
    ensures Measure(job, s) >= 0
  {
  }

  function QueueLengths(job: Job, i: nat): seq<nat>
    requires job.n > 0 && i <= |job.lines|
  {
    seq(job.n, c requires 0 <= c => |Dealt(job.lines, job.n, c, i)|)
  }

  /** Dealing the lines out loses and duplicates none. */
  lemma {:induction false} QueuesConserve(job: Job, i: nat)
    requires job.n > 0 && i <= |job.lines|
    ensures Sum((x: nat) => x, QueueLengths(job, i)) == i
  {
    var id := (x: nat) => x;
    if i == 0 {
      SumZero(QueueLengths(job, 0));
    } else {
      QueuesConserve(job, i - 1);
      var before, c := QueueLengths(job, i - 1), (i - 1) % job.n;
      SumUpdate(id, before, c, before[c] + 1);
      assert QueueLengths(job, i) == before[c := before[c] + 1];
    }
  }

  lemma {:induction false} SumZero(s: seq<nat>)
    requires forall i :: 0 <= i < |s| ==> s[i] == 0
    ensures Sum((x: nat) => x, s) == 0
  {
    if s != [] {
      SumZero(s[1..]);
    }
  }

  lemma {:induction false} WorkersStart(convs: seq<Converter>, lengths: seq<nat>)
    requires |convs| == |lengths|
    requires forall c :: 0 <= c < |convs| ==> convs[c].pc.Unstarted? && |convs[c].inQ| == lengths[c]
    ensures Sum(WorkerMeasure, convs) == 12 * Sum((x: nat) => x, lengths) + 3 * |convs|
  {
    if convs != [] {
      WorkersStart(convs[1..], lengths[1..]);
    }
  }

  /** Total work: however the threads interleave, a run of L lines over n converters takes at most
      24*L + 5*n + 12 ordinary steps, plus two for every spurious wake-up. */
  lemma RunBound(job: Job, run: seq<Action>)
    requires job.n > 0 && Run(job, run).Some?
    ensures Steps(run) <= 24 * |job.lines| + 5 * job.n + 12 + 2 * Wakes(run)
  {
    InitInv(job);
    ExecMeasure(job, Init(job), run);
    RunInv(job, run);
    MeasureNonnegative(job, Run(job, run).value);
    QueuesConserve(job, |job.lines|);
    WorkersStart(Init(job).convs, QueueLengths(job, |job.lines|));
  }

  /** A run that cannot be continued by an ordinary step is complete: every line has its record,
      every worker has exited and the main thread has joined them all. */
  lemma StuckOnlyWhenDone(job: Job, run: seq<Action>, s: State)
    requires job.n > 0 && Run(job, run) == Some(s)
    requires forall t :: Step(job, s, Go(t)).None?
    ensures s.main.Finished? && |s.db| == |job.lines|
    ensures forall c :: 0 <= c < job.n ==> s.convs[c].pc.Exited? && s.convs[c].outQ == []
  {
    RunInv(job, run);
    if !s.main.Finished? {
      var t := Progress(job, s);
    } else {
      forall c | 0 <= c < job.n ensures s.convs[c].outQ == [] {
        assert At(job, s, c);
      }
    }
  }

  lemma Advance(job: Job, s: State) returns (t: Thread, s': State)
    requires Inv(job, s) && !s.main.Finished?
    ensures Step(job, s, Go(t)) == Some(s') && Inv(job, s')
    ensures 0 <= Measure(job, s') < Measure(job, s)
  {
    t := Progress(job, s);
    s' := Step(job, s, Go(t)).value;
    StepMeasure(job, s, Go(t), s');
    StepInv(job, s, Go(t), s');
    MeasureNonnegative(job, s');
  }

  lemma {:induction false} Finishing(job: Job, s: State) returns (more: seq<Action>)
    requires Inv(job, s)
    ensures Exec(job, s, more).Some? && Exec(job, s, more).value.main.Finished?
    decreases Measure(job, s)
  {
    if s.main.Finished? {
      more := [];
    } else {
      var t, s' := Advance(job, s);
      var rest := Finishing(job, s');
      more := [Go(t)] + rest;
      assert more[1..] == rest;
    }
  }

  /** From every reachable state the program can still run to its end. */
  lemma CanFinish(job: Job, run: seq<Action>, s: State)
    requires job.n > 0 && Run(job, run) == Some(s)
    ensures exists more :: Exec(job, s, more).Some? && Exec(job, s, more).value.main.Finished?
  {
    RunInv(job, run);
    var more := Finishing(job, s);
  }

  /** One converter and two files, of which the second cannot be opened. */
  function StaleJob(): Job {
    Job([Line("a", 1), Line("b", 2)], 1, f => if f == "a" then Some("A") else None)
  }

  /** Every finished run of it has recorded the first image under both labels. */
  lemma StaleImageExample(run: seq<Action>, s: State)
    requires Run(StaleJob(), run) == Some(s) && s.main.Finished?
    ensures s.db == [Record("A", 1), Record("A", 2)]
  {
    var job := StaleJob();
    RunInv(job, run);
    DeliveredInOrder(job, run, s, 0);
    DeliveredInOrder(job, run, s, 1);
  }

  lemma StaleJobFinishes()
    ensures exists run :: Run(StaleJob(), run).Some? && Run(StaleJob(), run).value.main.Finished?
  {
    InitInv(StaleJob());
    var run := Finishing(StaleJob(), Init(StaleJob()));
    assert Run(StaleJob(), run).Some?;
  }
}
