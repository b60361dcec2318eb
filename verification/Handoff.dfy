/** The two-thread hand-off of the hft client: the main thread publishes where the worker starts and parses A, the
    worker parses B into transposed layout, and one word, `work_state`, says whose turn it is. */
module Handoff {
  import opened Checksum
  import opened Wire
  import opened RowMajor
  import opened TraceKernel
  import opened Traces
  import opened HftParser
  import opened HftIds

  /** Where each thread is. `ParseA` and `ParseB` are inside the parsing loops. */
  datatype MainPc = Recv | Header | Publish | ParseA(j: nat) | Wait | Reset | Compute
  datatype WorkerPc = Spin | Load | ParseB(k: nat, i: nat) | Done

  /** `q` is the main thread's cursor, `p` the worker's; `jobs` are the challenges received. */
  datatype Sys = Sys(main: MainPc, worker: WorkerPc, workState: int, buf: string, q: nat, workerP: nat, p: nat,
                     a: seq<int>, b: seq<int>, jobs: seq<Challenge>, answers: seq<int>)

  datatype Event = Main(incoming: Challenge) | Worker

  function Put(s: seq<int>, c: nat, v: int): seq<int> {
    if c < |s| then s[c := v] else s
  }

  /** A thread that waits for `work_state` is held up until it has the value waited for. */
  ghost predicate Enabled(n: nat, s: Sys, e: Event) {
    match e
    case Main(incoming) => (s.main == Recv ==> GoodChallenge(n, incoming)) && (s.main == Wait ==> s.workState == 2)
    case Worker => s.worker == Spin ==> s.workState == 1
  }

  ghost function MainStep(n: nat, t: Tier, s: Sys, incoming: Challenge): Sys
    requires n > 0 && Enabled(n, s, Main(incoming))
  {
    match s.main
    case Recv => s.(main := Header, buf := Payload(n, incoming), jobs := s.jobs + [incoming])
    case Header => s.(main := Publish, q := AfterHeader(s.buf), workerP := WorkerStart(s.buf))
    case Publish => s.(main := ParseA(0), workState := 1)
    case ParseA(j) =>
      var (v, len) := Field(s.buf, s.q);
      s.(a := Put(s.a, j, v), q := s.q + len, main := if j + 1 == n * n then Wait else ParseA(j + 1))
    case Wait => s.(main := Reset)
    case Reset => s.(main := Compute, workState := 0)
    case Compute => s.(main := Recv, answers := s.answers + [TraceOf(t, n, s.a, s.b) % MODULO])
  }

  ghost function WorkerStep(n: nat, s: Sys): (r: Sys)
    ensures |r.b| == |s.b|
  {
    match s.worker
    case Spin => s.(worker := Load)
    case Load => s.(worker := ParseB(0, 0), p := s.workerP)
    case ParseB(k, i) =>
      var (v, len) := Field(s.buf, s.p);
      s.(b := Put(s.b, Cell(n, i, k), v), p := s.p + len,
         worker := if i + 1 < n then ParseB(k, i + 1) else if k + 1 < n then ParseB(k + 1, 0) else Done)
    case Done => s.(worker := Spin, workState := 2)
  }

  ghost function Next(n: nat, t: Tier, s: Sys, e: Event): Sys
    requires n > 0 && Enabled(n, s, e)
  {
    match e case Main(incoming) => MainStep(n, t, s, incoming) case Worker => WorkerStep(n, s)
  }

  // ---------- data races ----------

  datatype Place = BufferPlace | PointerPlace | APlace | BPlace

  /** What the next step of each thread reads and writes, apart from `work_state` itself. */
  function MainReads(s: Sys): set<Place> {
    match s.main
    case Header => {BufferPlace}
    case ParseA(_) => {BufferPlace}
    case Compute => {APlace, BPlace}
    case _ => {}
  }

  function MainWrites(s: Sys): set<Place> {
    match s.main
    case Recv => {BufferPlace}
    case Header => {PointerPlace}
    case ParseA(_) => {APlace}
    case _ => {}
  }

  function WorkerReads(s: Sys): set<Place> {
    match s.worker
    case Load => {PointerPlace}
    case ParseB(_, _) => {BufferPlace}
    case _ => {}
  }

  function WorkerWrites(s: Sys): set<Place> {
    if s.worker.ParseB? then {BPlace} else {}
  }

  /** No step of one thread writes what the other's next step reads or writes. */
  ghost predicate RaceFree(s: Sys) {
    MainWrites(s) !! WorkerReads(s) && MainWrites(s) !! WorkerWrites(s) && MainReads(s) !! WorkerWrites(s)
  }

  /** Whether two states hold the same at these places. */
  ghost predicate AgreeOn(s: Sys, r: Sys, xs: set<Place>) {
    (BufferPlace in xs ==> s.buf == r.buf) && (PointerPlace in xs ==> s.workerP == r.workerP)
    && (APlace in xs ==> s.a == r.a) && (BPlace in xs ==> s.b == r.b)
  }

  const PLACES := {BufferPlace, PointerPlace, APlace, BPlace}

  /** What the main thread keeps for itself. */
  ghost predicate SameMain(s: Sys, r: Sys) {
    s.main == r.main && s.q == r.q && s.jobs == r.jobs && s.answers == r.answers
  }

  /** What the worker keeps for itself. */
  ghost predicate SameWorker(s: Sys, r: Sys) {
    s.worker == r.worker && s.p == r.p
  }

  /** A step of the main thread changes no place outside its write set. */
  lemma MainTouches(n: nat, t: Tier, s: Sys, incoming: Challenge)
    requires n > 0 && Enabled(n, s, Main(incoming))
    ensures SameWorker(s, MainStep(n, t, s, incoming))
    ensures AgreeOn(s, MainStep(n, t, s, incoming), PLACES - MainWrites(s))
  {
  }

  /** What it leaves there and with the thread depends on nothing but the thread's own, the read set and what it
      updates. */
  lemma MainDepends(n: nat, t: Tier, s: Sys, r: Sys, incoming: Challenge)
    requires n > 0 && Enabled(n, s, Main(incoming)) && Enabled(n, r, Main(incoming)) && SameMain(s, r)
    requires AgreeOn(s, r, MainReads(s)) && AgreeOn(s, r, MainWrites(s))
    ensures SameMain(MainStep(n, t, s, incoming), MainStep(n, t, r, incoming))
    ensures AgreeOn(MainStep(n, t, s, incoming), MainStep(n, t, r, incoming), MainWrites(s))
  {
  }

  /** A step of the worker changes no place outside its write set. */
  lemma WorkerTouches(n: nat, s: Sys)
    ensures SameMain(s, WorkerStep(n, s)) && AgreeOn(s, WorkerStep(n, s), PLACES - WorkerWrites(s))
  {
  }

  lemma WorkerDepends(n: nat, s: Sys, r: Sys)
    requires SameWorker(s, r) && AgreeOn(s, r, WorkerReads(s)) && AgreeOn(s, r, WorkerWrites(s))
    ensures SameWorker(WorkerStep(n, s), WorkerStep(n, r))
    ensures AgreeOn(WorkerStep(n, s), WorkerStep(n, r), WorkerWrites(s))
  {
  }

  // ---------- the invariant ----------

  /** Whose turn it is. */
  ghost predicate Turns(s: Sys) {
    (s.workState == 1 ==> s.main.ParseA? || s.main == Wait)
    && (s.workState == 0 ==>
          s.worker == Spin && (s.main == Recv || s.main == Header || s.main == Publish || s.main == Compute))
    && (s.workState == 2 ==> s.worker == Spin && (s.main.ParseA? || s.main == Wait || s.main == Reset))
    && (s.workState == 0 || s.workState == 1 || s.workState == 2)
    && (s.main == Reset ==> s.workState == 2)
  }

  /** The challenge in hand. */
  function Current(jobs: seq<Challenge>): Challenge {
    if jobs == [] then Challenge(0, [], []) else jobs[|jobs| - 1]
  }

  /** The buffer holds the payload of the challenge in hand, and `worker_p` once published is where the worker
      starts. */
  ghost predicate Holding(n: nat, main: MainPc, buf: string, workerP: nat, jobs: seq<Challenge>) {
    (main != Recv ==> jobs != [] && GoodChallenge(n, Current(jobs)) && buf == Payload(n, Current(jobs)))
    && (main != Recv && main != Header ==> workerP == WorkerStart(buf))
  }

  ghost predicate Held(n: nat, s: Sys) {
    |s.a| == n * n && |s.b| == n * n && Holding(n, s.main, s.buf, s.workerP, s.jobs)
  }

  /** The first `j` fields from `p` on have been read into `a`. */
  ghost predicate ReadIn(s: string, p: nat, a: seq<int>, j: nat) {
    j <= |a| && forall c :: 0 <= c < j ==> a[c] == FieldAt(s, p, c)
  }

  /** So have the fields from `p` on into `b`, across: columns before `k`, and row indices before `i` in `k`. */
  ghost predicate Spread(n: nat, s: string, p: nat, b: seq<int>, k: nat, i: nat) {
    |b| == n * n
    && forall c, r :: 0 <= c < n && 0 <= r < n && (c < k || (c == k && r < i)) ==>
                        Cell(n, r, c) < |b| && b[Cell(n, r, c)] == FieldAt(s, p, Cell(n, c, r))
  }

  /** What a place in the main loop says about cursor and A. */
  ghost predicate MainAt(n: nat, main: MainPc, buf: string, q: nat, a: seq<int>) {
    match main
    case Publish => q == AfterHeader(buf)
    case ParseA(j) => j < n * n && q == Cursor(buf, AfterHeader(buf), j) && ReadIn(buf, AfterHeader(buf), a, j)
    case Wait => ReadIn(buf, AfterHeader(buf), a, n * n)
    case Reset => ReadIn(buf, AfterHeader(buf), a, n * n)
    case Compute => ReadIn(buf, AfterHeader(buf), a, n * n)
    case _ => true
  }

  /** What a place in the worker's loop says about cursor and B. */
  ghost predicate WorkerAt(n: nat, worker: WorkerPc, buf: string, p: nat, b: seq<int>) {
    match worker
    case ParseB(k, i) =>
      k < n && i < n && p == Cursor(buf, WorkerStart(buf), Cell(n, k, i)) && Spread(n, buf, WorkerStart(buf), b, k, i)
    case Done => Spread(n, buf, WorkerStart(buf), b, n, 0)
    case _ => true
  }

  ghost predicate MainParsing(n: nat, s: Sys) {
    MainAt(n, s.main, s.buf, s.q, s.a)
  }

  ghost predicate WorkerParsing(n: nat, s: Sys) {
    WorkerAt(n, s.worker, s.buf, s.p, s.b)
    && (s.workState == 2 || s.main == Compute ==> Spread(n, s.buf, WorkerStart(s.buf), s.b, n, 0))
  }

  ghost predicate AllGood(n: nat, jobs: seq<Challenge>) {
    jobs == [] || (GoodChallenge(n, jobs[|jobs| - 1]) && AllGood(n, jobs[..|jobs| - 1]))
  }

  /** The response to a challenge on its own. */
  ghost function Responder(n: nat, t: Tier): Challenge -> int
    requires n > 0
  {
    (c: Challenge) => if GoodChallenge(n, c) then Response(n, t, Payload(n, c)) else 0
  }

  ghost function Responses(f: Challenge -> int, jobs: seq<Challenge>): seq<int> {
    if jobs == [] then [] else Responses(f, jobs[..|jobs| - 1]) + [f(jobs[|jobs| - 1])]
  }

  /** Every challenge but the one in progress has been answered. */
  ghost predicate Answered(f: Challenge -> int, main: MainPc, jobs: seq<Challenge>, answers: seq<int>) {
    if main == Recv then answers == Responses(f, jobs)
    else jobs != [] && answers == Responses(f, jobs[..|jobs| - 1])
  }

  ghost predicate Inv(n: nat, t: Tier, s: Sys)
    requires n > 0
  {
    Turns(s) && Held(n, s) && MainParsing(n, s) && WorkerParsing(n, s) && AllGood(n, s.jobs)
    && Answered(Responder(n, t), s.main, s.jobs, s.answers)
  }

  // ---------- preservation ----------

  lemma MainKeepsTurns(n: nat, t: Tier, s: Sys, incoming: Challenge)
    requires n > 0 && Turns(s) && Enabled(n, s, Main(incoming))
    ensures Turns(MainStep(n, t, s, incoming))
  {
  }

  lemma Received(n: nat, incoming: Challenge, workerP: nat, jobs: seq<Challenge>)
    requires GoodChallenge(n, incoming)
    ensures Holding(n, Header, Payload(n, incoming), workerP, jobs + [incoming])
  {
    assert Current(jobs + [incoming]) == incoming;
  }

  lemma MainKeepsHolding(n: nat, t: Tier, s: Sys, incoming: Challenge)
    requires n > 0 && Holding(n, s.main, s.buf, s.workerP, s.jobs) && Enabled(n, s, Main(incoming))
    ensures var r := MainStep(n, t, s, incoming);
            Holding(n, r.main, r.buf, r.workerP, r.jobs) && |r.a| == |s.a| && |r.b| == |s.b|
  {
    if s.main == Recv { Received(n, incoming, s.workerP, s.jobs); }
  }

  /** One more field of A. */
  lemma ReadOne(s: string, p: nat, q: nat, a: seq<int>, j: nat)
    requires q == Cursor(s, p, j) && ReadIn(s, p, a, j) && j < |a|
    ensures q + Field(s, q).1 == Cursor(s, p, j + 1) && ReadIn(s, p, a[j := Field(s, q).0], j + 1)
  {
    NextCursor(s, p, j + 1);
  }

  lemma ParseAPlace(n: nat, t: Tier, s: Sys, incoming: Challenge)
    requires n > 0 && |s.a| == n * n && MainParsing(n, s) && s.main.ParseA?
    ensures MainParsing(n, MainStep(n, t, s, incoming))
  {
    ReadOne(s.buf, AfterHeader(s.buf), s.q, s.a, s.main.j);
  }

  lemma MainKeepsParsing(n: nat, t: Tier, s: Sys, incoming: Challenge)
    requires n > 0 && |s.a| == n * n && MainParsing(n, s) && Enabled(n, s, Main(incoming))
    ensures MainParsing(n, MainStep(n, t, s, incoming))
  {
    match s.main
    case ParseA(_) => ParseAPlace(n, t, s, incoming);
    case Publish => CellBound(n, n, 0, 0);
    case _ =>
  }

  lemma MainKeepsWorker(n: nat, t: Tier, s: Sys, incoming: Challenge)
    requires n > 0 && Turns(s) && WorkerParsing(n, s) && Enabled(n, s, Main(incoming))
    ensures WorkerParsing(n, MainStep(n, t, s, incoming))
  {
  }

  lemma ReadIsFields(s: string, p: nat, a: seq<int>)
    requires ReadIn(s, p, a, |a|)
    ensures a == Fields(s, p, |a|)
  {
    forall c | 0 <= c < |a| ensures a[c] == Fields(s, p, |a|)[c] { FieldsAt(s, p, |a|, c); }
  }

  lemma SpreadIsColumns(n: nat, s: string, p: nat, b: seq<int>)
    requires n > 0 && Spread(n, s, p, b, n, 0)
    ensures b == Columns(n, s, p, n)
  {
    ColumnsLength(n, s, p, n);
    forall c | 0 <= c < n * n ensures b[c] == Columns(n, s, p, n)[c] {
      var i, k := CellOf(n, n, c);
      ColumnsAt(n, s, p, n, i, k);
      assert b[Cell(n, i, k)] == FieldAt(s, p, Cell(n, k, i));
    }
  }

  /** When the trace is computed, A and B are what each thread's part of the payload parses to. */
  lemma Complete(n: nat, s: Sys)
    requires n > 0 && s.main == Compute && Held(n, s) && MainParsing(n, s) && WorkerParsing(n, s)
    ensures s.a == Fields(s.buf, AfterHeader(s.buf), n * n) && s.b == Columns(n, s.buf, WorkerStart(s.buf), n)
  {
    ReadIsFields(s.buf, AfterHeader(s.buf), s.a);
    SpreadIsColumns(n, s.buf, WorkerStart(s.buf), s.b);
  }

  lemma FrontOf(jobs: seq<Challenge>, incoming: Challenge)
    ensures (jobs + [incoming])[..|jobs + [incoming]| - 1] == jobs
  {
  }

  lemma MainKeepsAnswered(n: nat, t: Tier, s: Sys, incoming: Challenge, f: Challenge -> int)
    requires n > 0 && Enabled(n, s, Main(incoming)) && Answered(f, s.main, s.jobs, s.answers)
    requires s.main == Compute ==> TraceOf(t, n, s.a, s.b) % MODULO == f(Current(s.jobs))
    ensures var r := MainStep(n, t, s, incoming); Answered(f, r.main, r.jobs, r.answers)
  {
    if s.main == Recv { FrontOf(s.jobs, incoming); }
  }

  lemma MainKeepsGood(n: nat, t: Tier, s: Sys, incoming: Challenge)
    requires n > 0 && Enabled(n, s, Main(incoming)) && AllGood(n, s.jobs)
    ensures AllGood(n, MainStep(n, t, s, incoming).jobs)
  {
    if s.main == Recv { FrontOf(s.jobs, incoming); }
  }

  lemma Computes(n: nat, t: Tier, s: Sys)
    requires n > 0 && s.main == Compute && Held(n, s) && MainParsing(n, s) && WorkerParsing(n, s)
    ensures TraceOf(t, n, s.a, s.b) % MODULO == Responder(n, t)(Current(s.jobs))
  {
    Complete(n, s);
  }

  lemma NextCell(n: nat, k: nat, i: nat)
    ensures Cell(n, k, i + 1) == Cell(n, k, i) + 1 && (i + 1 == n ==> Cell(n, k + 1, 0) == Cell(n, k, i) + 1)
  {
    assert (k + 1) * n == k * n + n;
  }

  lemma SpreadOne(n: nat, s: string, p: nat, b: seq<int>, k: nat, i: nat)
    requires k < n && i < n && Spread(n, s, p, b, k, i)
    ensures Cell(n, i, k) < |b| && Spread(n, s, p, b[Cell(n, i, k) := FieldAt(s, p, Cell(n, k, i))], k, i + 1)
  {
    CellBound(n, n, i, k);
    var b' := b[Cell(n, i, k) := FieldAt(s, p, Cell(n, k, i))];
    forall c, r | 0 <= c < n && 0 <= r < n && (c < k || (c == k && r < i + 1))
      ensures Cell(n, r, c) < |b| && b'[Cell(n, r, c)] == FieldAt(s, p, Cell(n, c, r))
    {
      CellBound(n, n, r, c);
      if Cell(n, r, c) == Cell(n, i, k) { CellUnique(n, r, c, i, k); }
    }
  }

  /** A column is done; after the last one, all are. */
  lemma NextColumn(n: nat, s: string, p: nat, b: seq<int>, k: nat)
    requires k < n && Spread(n, s, p, b, k, n)
    ensures Spread(n, s, p, b, k + 1, 0)
  {
  }

  /** One more field of B. */
  lemma ReadAcross(n: nat, s: string, start: nat, p: nat, b: seq<int>, k: nat, i: nat)
    requires k < n && i < n && p == Cursor(s, start, Cell(n, k, i)) && Spread(n, s, start, b, k, i)
    ensures p + Field(s, p).1 == Cursor(s, start, Cell(n, k, i) + 1)
    ensures Cell(n, i, k) < |b| && Spread(n, s, start, b[Cell(n, i, k) := Field(s, p).0], k, i + 1)
  {
    NextCursor(s, start, Cell(n, k, i) + 1);
    SpreadOne(n, s, start, b, k, i);
  }

  lemma ParseBPlace(n: nat, buf: string, p: nat, b: seq<int>, k: nat, i: nat)
    requires k < n && i < n && p == Cursor(buf, WorkerStart(buf), Cell(n, k, i) + 1)
    requires Spread(n, buf, WorkerStart(buf), b, k, i + 1)
    ensures WorkerAt(n, if i + 1 < n then ParseB(k, i + 1) else if k + 1 < n then ParseB(k + 1, 0) else Done, buf, p, b)
  {
    NextCell(n, k, i);
    if i + 1 == n { NextColumn(n, buf, WorkerStart(buf), b, k); }
  }

  lemma ParseBAt(n: nat, buf: string, p: nat, b: seq<int>, k: nat, i: nat)
    requires WorkerAt(n, ParseB(k, i), buf, p, b)
    ensures Cell(n, i, k) < |b|
    ensures WorkerAt(n, if i + 1 < n then ParseB(k, i + 1) else if k + 1 < n then ParseB(k + 1, 0) else Done,
                     buf, p + Field(buf, p).1, b[Cell(n, i, k) := Field(buf, p).0])
  {
    ReadAcross(n, buf, WorkerStart(buf), p, b, k, i);
    ParseBPlace(n, buf, p + Field(buf, p).1, b[Cell(n, i, k) := Field(buf, p).0], k, i);
  }

  lemma ParseBKeeps(n: nat, s: Sys)
    requires s.worker.ParseB? && WorkerAt(n, s.worker, s.buf, s.p, s.b)
    ensures var r := WorkerStep(n, s); WorkerAt(n, r.worker, r.buf, r.p, r.b)
  {
    ParseBAt(n, s.buf, s.p, s.b, s.worker.k, s.worker.i);
  }

  lemma LoadKeeps(n: nat, s: Sys)
    requires n > 0 && s.worker == Load && |s.b| == n * n && s.workerP == WorkerStart(s.buf)
    ensures var r := WorkerStep(n, s); WorkerAt(n, r.worker, r.buf, r.p, r.b)
  {
  }

  lemma WorkerKeepsPlace(n: nat, s: Sys)
    requires n > 0 && Turns(s) && Held(n, s) && WorkerParsing(n, s) && Enabled(n, s, Worker)
    ensures var r := WorkerStep(n, s); WorkerAt(n, r.worker, r.buf, r.p, r.b)
  {
    match s.worker
    case ParseB(_, _) => ParseBKeeps(n, s);
    case Load => LoadKeeps(n, s);
    case _ =>
  }

  lemma WorkerKeepsParsing(n: nat, s: Sys)
    requires n > 0 && Turns(s) && Held(n, s) && WorkerParsing(n, s) && Enabled(n, s, Worker)
    ensures WorkerParsing(n, WorkerStep(n, s))
  {
    WorkerKeepsPlace(n, s);
  }

  lemma WorkerKeepsTurns(n: nat, s: Sys)
    requires Turns(s) && Enabled(n, s, Worker)
    ensures Turns(WorkerStep(n, s))
  {
  }

  lemma StepKeeps(n: nat, t: Tier, s: Sys, e: Event)
    requires n > 0 && Inv(n, t, s) && Enabled(n, s, e)
    ensures Inv(n, t, Next(n, t, s, e))
  {
    match e
    case Main(incoming) =>
      MainKeepsTurns(n, t, s, incoming);
      MainKeepsHolding(n, t, s, incoming);
      MainKeepsParsing(n, t, s, incoming);
      MainKeepsWorker(n, t, s, incoming);
      if s.main == Compute { Computes(n, t, s); }
      MainKeepsAnswered(n, t, s, incoming, Responder(n, t));
      MainKeepsGood(n, t, s, incoming);
    case Worker =>
      WorkerKeepsTurns(n, s);
      WorkerKeepsParsing(n, s);
      WorkerTouches(n, s);
  }

  // ---------- every interleaving ----------

  ghost function Start(n: nat): Sys {
    Sys(Recv, Spin, 0, [], 0, 0, 0, seq(n * n, _ => 0), seq(n * n, _ => 0), [], [])
  }

  ghost predicate Runs(n: nat, t: Tier, s: Sys, es: seq<Event>)
    requires n > 0
    decreases es
  {
    es == [] || (Enabled(n, s, es[0]) && Runs(n, t, Next(n, t, s, es[0]), es[1..]))
  }

  ghost function After(n: nat, t: Tier, s: Sys, es: seq<Event>): Sys
    requires n > 0 && Runs(n, t, s, es)
    decreases es
  {
    if es == [] then s else After(n, t, Next(n, t, s, es[0]), es[1..])
  }

  lemma {:induction false} RunKeeps(n: nat, t: Tier, s: Sys, es: seq<Event>)
    requires n > 0 && Inv(n, t, s) && Runs(n, t, s, es)
    ensures Inv(n, t, After(n, t, s, es))
    decreases es
  {
    if es != [] {
      StepKeeps(n, t, s, es[0]);
      RunKeeps(n, t, Next(n, t, s, es[0]), es[1..]);
    }
  }

  /** Every interleaving of the two threads is free of data races, and when the trace is computed A and B are complete:
      what the main thread's part of the payload in hand parses to, and the worker's, across. */
  lemma Exclusive(n: nat, t: Tier, es: seq<Event>)
    requires n > 0 && Runs(n, t, Start(n), es)
    ensures var s := After(n, t, Start(n), es);
            RaceFree(s)
            && (s.main == Compute ==>
                  s.jobs != [] && GoodChallenge(n, Current(s.jobs)) && s.buf == Payload(n, Current(s.jobs))
                  && s.a == Fields(s.buf, AfterHeader(s.buf), n * n)
                  && s.b == Columns(n, s.buf, WorkerStart(s.buf), n))
  {
    RunKeeps(n, t, Start(n), es);
    var s := After(n, t, Start(n), es);
    if s.main == Compute { Complete(n, s); }
  }

  /** With an id below 1000 they are A and the transpose of B, of values the kernel can take. */
  lemma KernelReady(n: nat, t: Tier, es: seq<Event>)
    requires 0 < n < 1000 && Runs(n, t, Start(n), es)
    ensures var s := After(n, t, Start(n), es);
            var c := Current(s.jobs);
            s.main == Compute && c.cid < 1000 ==>
              Parsed(n, s.a, c.a) && Transposed(n, s.b, c.b) && InRange(s.a) && InRange(s.b)
  {
    Exclusive(n, t, es);
    var s := After(n, t, Start(n), es);
    if s.main == Compute && Current(s.jobs).cid < 1000 { ParsesMatrices(n, Current(s.jobs)); }
  }

  lemma StepsCommute(n: nat, t: Tier, s: Sys, incoming: Challenge)
    requires n > 0 && Turns(s) && Enabled(n, s, Main(incoming)) && Enabled(n, s, Worker)
    ensures Enabled(n, MainStep(n, t, s, incoming), Worker) && Enabled(n, WorkerStep(n, s), Main(incoming))
    ensures WorkerStep(n, MainStep(n, t, s, incoming)) == MainStep(n, t, WorkerStep(n, s), incoming)
  {
    assert s.workState == 1 && s.main.ParseA?;
  }

  /** Wherever both threads have a step to take, its order does not matter: either leaves the other enabled, and both
      orders lead to the same state. */
  lemma OrderIrrelevant(n: nat, t: Tier, es: seq<Event>, incoming: Challenge)
    requires n > 0 && Runs(n, t, Start(n), es)
    requires var s := After(n, t, Start(n), es); Enabled(n, s, Main(incoming)) && Enabled(n, s, Worker)
    ensures var s := After(n, t, Start(n), es);
            Enabled(n, Next(n, t, s, Main(incoming)), Worker) && Enabled(n, Next(n, t, s, Worker), Main(incoming))
            && Next(n, t, Next(n, t, s, Main(incoming)), Worker) == Next(n, t, Next(n, t, s, Worker), Main(incoming))
  {
    RunKeeps(n, t, Start(n), es);
    StepsCommute(n, t, After(n, t, Start(n), es), incoming);
  }

  lemma {:induction false} ResponsesAt(f: Challenge -> int, jobs: seq<Challenge>, k: nat)
    requires k < |jobs|
    ensures |Responses(f, jobs)| == |jobs| && Responses(f, jobs)[k] == f(jobs[k])
  {
    var front := jobs[..|jobs| - 1];
    if k < |front| { ResponsesAt(f, front, k); } else if front != [] { ResponsesAt(f, front, 0); }
  }

  lemma {:induction false} GoodAt(n: nat, jobs: seq<Challenge>, k: nat)
    requires AllGood(n, jobs) && k < |jobs|
    ensures GoodChallenge(n, jobs[k])
  {
    if k < |jobs| - 1 { GoodAt(n, jobs[..|jobs| - 1], k); }
  }

  /** The challenges answered: all but one that is in progress. */
  ghost function Finished(s: Sys): seq<Challenge> {
    if s.main == Recv || s.jobs == [] then s.jobs else s.jobs[..|s.jobs| - 1]
  }

  /** Every interleaving answers as if each challenge were handled on its own, one thread after the other. */
  lemma AnswersAreResponses(n: nat, t: Tier, es: seq<Event>)
    requires n > 0 && Runs(n, t, Start(n), es)
    ensures var s := After(n, t, Start(n), es);
            AllGood(n, Finished(s)) && s.answers == Responses(Responder(n, t), Finished(s))
  {
    RunKeeps(n, t, Start(n), es);
  }

  /** The challenges that the main thread receives in the course of `es`. */
  ghost function Taken(n: nat, t: Tier, s: Sys, es: seq<Event>): seq<Challenge>
    requires n > 0 && Runs(n, t, s, es)
    decreases es
  {
    if es == [] then []
    else
      (if es[0].Main? && s.main == Recv then [es[0].incoming] else []) + Taken(n, t, Next(n, t, s, es[0]), es[1..])
  }

  lemma TakenOne(n: nat, t: Tier, s: Sys, e: Event)
    requires n > 0 && Enabled(n, s, e)
    ensures Next(n, t, s, e).jobs == s.jobs + if e.Main? && s.main == Recv then [e.incoming] else []
  {
  }

  lemma JobsRegroup(a: seq<Challenge>, b: seq<Challenge>, c: seq<Challenge>)
    ensures (a + b) + c == a + (b + c)
  {
  }

  /** The challenges are those received, in that order, each once. */
  lemma {:induction false} JobsAreTaken(n: nat, t: Tier, s: Sys, es: seq<Event>)
    requires n > 0 && Runs(n, t, s, es)
    ensures After(n, t, s, es).jobs == s.jobs + Taken(n, t, s, es)
    decreases es
  {
    if es != [] {
      TakenOne(n, t, s, es[0]);
      JobsAreTaken(n, t, Next(n, t, s, es[0]), es[1..]);
      JobsRegroup(s.jobs, if es[0].Main? && s.main == Recv then [es[0].incoming] else [],
                  Taken(n, t, Next(n, t, s, es[0]), es[1..]));
    }
  }

  /** In every interleaving, what is answered to a challenge is its trace exactly if its response is. */
  lemma AnswerIsRight(n: nat, t: Tier, es: seq<Event>, k: nat)
    requires n > 0 && Runs(n, t, Start(n), es) && k < |Finished(After(n, t, Start(n), es))|
    ensures var s := After(n, t, Start(n), es);
            var c := Finished(s)[k];
            |s.answers| == |Finished(s)| && GoodChallenge(n, c)
            && (s.answers[k] == Trace(n, c.a, c.b, n) % 997 <==> Right(n, t, c))
  {
    AnswersAreResponses(n, t, es);
    var done := Finished(After(n, t, Start(n), es));
    GoodAt(n, done, k);
    ResponsesAt(Responder(n, t), done, k);
  }

  /** Each challenge with an id below 1000 is answered with its trace, whatever the others are. */
  lemma AnswersAreTraces(n: nat, t: Tier, es: seq<Event>, k: nat)
    requires 0 < n < 1000 && Supported(t, n) && Runs(n, t, Start(n), es) && k < |Finished(After(n, t, Start(n), es))|
    ensures var s := After(n, t, Start(n), es);
            var c := Finished(s)[k];
            |s.answers| == |Finished(s)| && GoodChallenge(n, c)
            && (c.cid < 1000 ==> s.answers[k] == Trace(n, c.a, c.b, n) % 997)
    ensures var s, taken := After(n, t, Start(n), es), Taken(n, t, Start(n), es);
            Finished(s) == if s.main == Recv || taken == [] then taken else taken[..|taken| - 1]
  {
    JobsAreTaken(n, t, Start(n), es);
    AnswerIsRight(n, t, es, k);
    var c := Finished(After(n, t, Start(n), es))[k];
    if c.cid < 1000 { SmallIdsRight(n, t, c); }
  }

  /** At N = 128 that holds with AVX2, with AVX-512 and without either. */
  lemma EveryTierAnswers(t: Tier, es: seq<Event>, k: nat)
    requires t == Vector(2, 512) || t == Vector(4, 256) || t == Scalar
    requires Runs(128, t, Start(128), es) && k < |Finished(After(128, t, Start(128), es))|
    ensures var s := After(128, t, Start(128), es);
            var c := Finished(s)[k];
            |s.answers| == |Finished(s)| && GoodChallenge(128, c)
            && (c.cid < 1000 ==> s.answers[k] == Trace(128, c.a, c.b, 128) % 997)
  {
    TiersFit();
    AnswersAreTraces(128, t, es, k);
  }

  /** At N = 128, with AVX2, with AVX-512 and without either: the challenges of an id are all answered with their traces
      exactly if the id is below 1000. */
  lemma EveryTierExact(t: Tier, cid: nat)
    requires t == Vector(2, 512) || t == Vector(4, 256) || t == Scalar
    requires cid < 0x8000_0000
    ensures (forall c: Challenge :: c.cid == cid ==> Right(128, t, c)) <==> cid < 1000
  {
    TiersFit();
    ExactIds(128, t, cid);
  }

  /** Neither thread can be held up for good: one of them always has a step. */
  lemma NeverStuck(n: nat, t: Tier, es: seq<Event>, incoming: Challenge)
    requires n > 0 && Runs(n, t, Start(n), es) && GoodChallenge(n, incoming)
    ensures var s := After(n, t, Start(n), es); Enabled(n, s, Main(incoming)) || Enabled(n, s, Worker)
  {
    RunKeeps(n, t, Start(n), es);
  }

  // ---------- every challenge is answered ----------

  /** How far each thread is from the answer to the challenge in hand, in steps; `sq` is n * n. */
  ghost function MainLeft(sq: nat, main: MainPc): int {
    match main
    case Recv => 0
    case Compute => 1
    case Reset => 2
    case Wait => 3
    case ParseA(j) => 3 + (sq - j)
    case Publish => 4 + sq
    case Header => 5 + sq
  }

  ghost function WorkerLeft(n: nat, sq: nat, s: Sys): int {
    match s.worker
    case Spin => if s.workState == 1 || s.main == Header || s.main == Publish then 3 + sq else 0
    case Load => 2 + sq
    case ParseB(k, i) => 1 + (sq - Cell(n, k, i))
    case Done => 1
  }

  /** An upper bound on the steps before the challenge in hand is answered. */
  ghost function StepsLeft(n: nat, s: Sys): int {
    MainLeft(n * n, s.main) + WorkerLeft(n, n * n, s)
  }

  lemma MainNearer(n: nat, t: Tier, s: Sys, incoming: Challenge, sq: nat)
    requires n > 0 && sq == n * n && Turns(s) && MainParsing(n, s) && Enabled(n, s, Main(incoming)) && s.main != Recv
    ensures var r := MainStep(n, t, s, incoming);
            0 <= MainLeft(sq, r.main) < MainLeft(sq, s.main) && WorkerLeft(n, sq, r) == WorkerLeft(n, sq, s)
  {
  }

  lemma WorkerNearer(n: nat, s: Sys, sq: nat)
    requires n > 0 && sq == n * n && Turns(s) && Enabled(n, s, Worker)
    requires s.worker.ParseB? ==> s.worker.k < n && s.worker.i < n
    ensures var r := WorkerStep(n, s);
            r.main == s.main && 0 <= WorkerLeft(n, sq, r) < WorkerLeft(n, sq, s)
  {
    if s.worker.ParseB? {
      CellBound(n, n, s.worker.k, s.worker.i);
      NextCell(n, s.worker.k, s.worker.i);
    }
  }

  /** The challenge in hand is being worked on: these steps can be taken, and none receives another one. */
  ghost predicate Works(n: nat, t: Tier, s: Sys, es: seq<Event>)
    requires n > 0
    decreases es
  {
    es == []
    || (Enabled(n, s, es[0]) && !(es[0].Main? && s.main == Recv) && Works(n, t, Next(n, t, s, es[0]), es[1..]))
  }

  /** Every step but a `recv` brings the answer nearer. */
  lemma Nearer(n: nat, t: Tier, s: Sys, e: Event)
    requires n > 0 && Turns(s) && MainParsing(n, s) && WorkerParsing(n, s) && Enabled(n, s, e)
    requires !(e.Main? && s.main == Recv)
    ensures StepsLeft(n, Next(n, t, s, e)) < StepsLeft(n, s)
  {
    match e
    case Main(incoming) => MainNearer(n, t, s, incoming, n * n);
    case Worker => WorkerNearer(n, s, n * n);
  }

  lemma NotNegative(n: nat, s: Sys)
    requires MainParsing(n, s) && WorkerParsing(n, s)
    ensures StepsLeft(n, s) >= 0
  {
    if s.worker.ParseB? { CellBound(n, n, s.worker.k, s.worker.i); }
  }

  /** However the threads are scheduled, the challenge in hand is answered within 2 * n^2 + 8 steps. */
  lemma {:induction false} AnsweredInTime(n: nat, t: Tier, s: Sys, es: seq<Event>)
    requires n > 0 && Inv(n, t, s) && Works(n, t, s, es)
    ensures |es| <= StepsLeft(n, s)
    decreases es
  {
    if es != [] {
      Nearer(n, t, s, es[0]);
      StepKeeps(n, t, s, es[0]);
      AnsweredInTime(n, t, Next(n, t, s, es[0]), es[1..]);
    } else {
      NotNegative(n, s);
    }
  }
}
