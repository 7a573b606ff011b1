/** The host control queue.

    A backend process drops request files into a shared directory (staged under a
    temporary name, then renamed); a host watcher lists the directory, reads each
    request, runs systemctl, publishes a result through a temporary file, and unlinks
    the request.  The protocol is a step machine in which enqueues interleave freely
    with the watcher and the watcher may crash between any two of its steps. */
module ControlQueue {
  import opened Ordering
  import opened PyText

  const ALLOWED := {"restart", "stop", "start"}

  datatype Record = Record(requestId: string, action: string, requestedBy: string)
  datatype Command = Sudo | Plain
  datatype Outcome = Succeeded(cmd: Command) | InvalidAction | SystemctlFailed

  datatype Content =
    | Request(record: Record)
    | Result(record: Record, outcome: Outcome)
    | NotJson                 // text that is not JSON
    | Partial                 // a half-written file
    | NotUtf8                 // decoding raises UnicodeDecodeError
    | NotAnObject             // JSON, but not an object: `.get` raises AttributeError

  /** What reading and decoding a file leads to. */
  datatype Decoded = Parsed(record: Record) | Undecodable | Raises

  function Decode(c: Content): Decoded {
    match c
    case Request(r) => Parsed(r)
    case Result(r, _) => Parsed(r)
    case NotJson | Partial => Undecodable
    case NotUtf8 | NotAnObject => Raises
  }

  // ---------- file names ----------

  /** The files of the control directory; `id` is what stands between prefix and suffix. */
  datatype File = Req(id: string) | ReqTmp(id: string) | ResultFile | ResultTmp

  function Name(f: File): string {
    match f
    case Req(id) => "request-" + id + ".json"
    case ReqTmp(id) => "request-" + id + ".json.tmp"
    case ResultFile => "last_result.json"
    case ResultTmp => "last_result.json.tmp"
  }

  /** The glob `request-*.json` on names. */
  predicate Globbed(name: string) {
    StartsWith(name, "request-") && EndsWith(name, ".json") && |name| >= |"request-"| + |".json"|
  }

  /** Different files have different names, and the glob selects exactly the published
      requests: never a result, a temporary, or a request still being written. */
  lemma GlobSelectsRequests(f: File, g: File)
    ensures Globbed(Name(f)) <==> f.Req?
    ensures Name(f) == Name(g) ==> f == g
    ensures Name(ResultFile) == "last_result.json" && Name(ResultTmp) == "last_result.json.tmp"
  {
    GlobExact(f);
    GlobExact(g);
    if Name(f) == Name(g) {
      var n := Name(f);
      if f.Req? && g.Req? {
        assert f.id == n[8..|n| - 5] && g.id == n[8..|n| - 5];
      } else if f.ReqTmp? && g.ReqTmp? {
        assert f.id == n[8..|n| - 9] && g.id == n[8..|n| - 9];
      } else {
        assert Name(ResultFile)[|Name(ResultFile)| - 1] != Name(ResultTmp)[|Name(ResultTmp)| - 1];
      }
    }
  }

  lemma GlobExact(f: File)
    ensures Globbed(Name(f)) <==> f.Req?
    ensures (f.Req? || f.ReqTmp?) <==> Name(f)[0] == 'r'
  {
    var n := Name(f);
    if EndsWith(n, ".json") { EndsWithLast(n, ".json"); }
    match f
    case Req(id) =>
      StartsWithSlice(n, "request-");
      StartsWithSlice(n[|n| - 5..], ".json");
      assert n[..8] == "request-" && n[|n| - 5..] == ".json";
    case ReqTmp(id) => assert n[0] == 'r' && n[|n| - 1] == 'p';
    case ResultFile => assert n[0] == 'l';
    case ResultTmp => assert n[0] == 'l';
  }

  // ---------- running systemctl ----------

  datatype Attempt = Unrunnable | Exit(code: int)

  /** One systemctl command that was run. */
  datatype Call = Call(cmd: Command, action: string)

  /** What `_apply` reports for an action, given how the two commands end if they are run. */
  ghost predicate Truthful(o: Outcome, action: string, sudo: Attempt, plain: Attempt) {
    && (o.InvalidAction? <==> action !in {"restart", "stop", "start"})
    && (o.Succeeded? <==> action in {"restart", "stop", "start"} && (sudo == Exit(0) || plain == Exit(0)))
    && (o.SystemctlFailed? <==> action in {"restart", "stop", "start"} && sudo != Exit(0) && plain != Exit(0))
    && (o.Succeeded? ==> (o.cmd == Sudo <==> sudo == Exit(0)))
  }

  /** The outcome of `_apply`, and the commands run on the way: sudo first, plain systemctl exactly if
      that did not succeed, and none at all for any other action. */
  function Apply(action: string, sudo: Attempt, plain: Attempt): (r: (Outcome, seq<Call>))
    ensures Truthful(r.0, action, sudo, plain)
    ensures r.1 <= [Call(Sudo, action), Call(Plain, action)]
    ensures r.1 != [] <==> action in ALLOWED
    ensures Call(Plain, action) in r.1 <==> action in ALLOWED && sudo != Exit(0)
  {
    if action !in ALLOWED then (InvalidAction, [])
    else if sudo == Exit(0) then (Succeeded(Sudo), [Call(Sudo, action)])
    else if plain == Exit(0) then (Succeeded(Plain), [Call(Sudo, action), Call(Plain, action)])
    else (SystemctlFailed, [Call(Sudo, action), Call(Plain, action)])
  }

  // ---------- the step machine ----------

  datatype Phase =
    | Idle
    | Scanning(todo: seq<string>)
    | Doomed(id: string, todo: seq<string>)
    | Ready(id: string, record: Record, todo: seq<string>)
    | Applied(id: string, record: Record, outcome: Outcome, todo: seq<string>)
    | Writing(id: string, record: Record, outcome: Outcome, todo: seq<string>)
    | Written(id: string, record: Record, outcome: Outcome, todo: seq<string>)
    | Published(id: string, record: Record, outcome: Outcome, todo: seq<string>)

  datatype Handling = Handling(id: string, record: Record, outcome: Outcome)

  /** What has happened so far; nothing in the program reads it. */
  datatype History = History(
    enqueued: map<string, Content>,
    sent: seq<Call>,                // commands run
    handled: set<Handling>,
    applied: multiset<string>,      // one occurrence per `_apply` of a request
    completed: multiset<string>,    // one per unlink that follows a publish
    interrupted: multiset<string>,  // one per crash between apply and unlink
    unread: set<string>)            // files whose read failed with OSError

  datatype State = State(files: map<File, Content>, phase: Phase, hist: History)

  const NOTHING := History(map[], [], {}, multiset{}, multiset{}, multiset{}, {})
  const START := State(map[], Idle, NOTHING)

  /** What sorting the glob yields: the ids of the requests present, by file name, without repeats. */
  ghost predicate IsListing(order: seq<string>, files: map<File, Content>) {
    && (forall n :: n in order <==> Req(n) in files)
    && Ascending(order)
  }

  predicate Before(a: string, b: string) { StrLe(Name(Req(a)), Name(Req(b))) }

  ghost predicate Ascending(order: seq<string>) {
    forall i, j :: 0 <= i < j < |order| ==> Before(order[i], order[j]) && order[i] != order[j]
  }

  datatype Step =
    | Stage(id: string, content: Content)
    | Rename(id: string)
    | Snapshot(order: seq<string>)
    | Read
    | ReadFails
    | Discard
    | DoApply(sudo: Attempt, plain: Attempt)
    | OpenTmp
    | FinishTmp
    | Replace
    | Unlink
    | EndPass
    | Crash

  ghost predicate Enabled(s: State, step: Step) {
    match step
    case Stage(_, _) => true
    case Rename(n) => // fresh name, write finished before the rename
      ReqTmp(n) in s.files && s.files[ReqTmp(n)] != Partial && n !in s.hist.enqueued
    case Snapshot(order) => s.phase.Idle? && IsListing(order, s.files)
    case Read => s.phase.Scanning? && s.phase.todo != [] && Req(s.phase.todo[0]) in s.files
    case ReadFails => s.phase.Scanning? && s.phase.todo != []
    case Discard => s.phase.Doomed?
    case DoApply(_, _) => s.phase.Ready?
    case OpenTmp => s.phase.Applied?
    case FinishTmp => s.phase.Writing?
    case Replace => s.phase.Written? && ResultTmp in s.files
    case Unlink => s.phase.Published?
    case EndPass => s.phase.Scanning? && s.phase.todo == []
    case Crash => !s.phase.Idle?
  }

  function InFlight(p: Phase): multiset<string> {
    match p
    case Applied(n, _, _, _) => multiset{n}
    case Writing(n, _, _, _) => multiset{n}
    case Written(n, _, _, _) => multiset{n}
    case Published(n, _, _, _) => multiset{n}
    case _ => multiset{}
  }

  function Interrupt(s: State): State {
    s.(phase := Idle, hist := s.hist.(interrupted := s.hist.interrupted + InFlight(s.phase)))
  }

  ghost function Do(s: State, step: Step): State
    requires Enabled(s, step)
  {
    match step
    case Stage(n, c) => s.(files := s.files[ReqTmp(n) := c])
    case Rename(n) =>
      var c := s.files[ReqTmp(n)];
      s.(files := (s.files - {ReqTmp(n)})[Req(n) := c], hist := s.hist.(enqueued := s.hist.enqueued[n := c]))
    case Snapshot(order) => s.(phase := Scanning(order))
    case Read =>
      var n, rest := s.phase.todo[0], s.phase.todo[1..];
      (match Decode(s.files[Req(n)])
       case Parsed(r) => s.(phase := Ready(n, r, rest))
       case Undecodable => s.(phase := Doomed(n, rest))
       case Raises => Interrupt(s))
    case ReadFails =>
      var n, rest := s.phase.todo[0], s.phase.todo[1..];
      s.(phase := Doomed(n, rest), hist := s.hist.(unread := s.hist.unread + {n}))
    case Discard => s.(files := s.files - {Req(s.phase.id)}, phase := Scanning(s.phase.todo))
    case DoApply(sudo, plain) =>
      var Ready(n, r, rest) := s.phase;
      var (outcome, sent) := Apply(r.action, sudo, plain);
      s.(phase := Applied(n, r, outcome, rest),
         hist := s.hist.(sent := s.hist.sent + sent,
                         handled := s.hist.handled + {Handling(n, r, outcome)},
                         applied := s.hist.applied + multiset{n}))
    case OpenTmp =>
      var Applied(n, r, o, rest) := s.phase;
      s.(files := s.files[ResultTmp := Partial], phase := Writing(n, r, o, rest))
    case FinishTmp =>
      var Writing(n, r, o, rest) := s.phase;
      s.(files := s.files[ResultTmp := Result(r, o)], phase := Written(n, r, o, rest))
    case Replace =>
      var Written(n, r, o, rest) := s.phase;
      s.(files := (s.files - {ResultTmp})[ResultFile := s.files[ResultTmp]], phase := Published(n, r, o, rest))
    case Unlink =>
      s.(files := s.files - {Req(s.phase.id)}, phase := Scanning(s.phase.todo),
         hist := s.hist.(completed := s.hist.completed + multiset{s.phase.id}))
    case EndPass => s.(phase := Idle)
    case Crash => Interrupt(s)
  }

  ghost predicate Runs(s: State, steps: seq<Step>)
    decreases steps
  {
    steps == [] || (Enabled(s, steps[0]) && Runs(Do(s, steps[0]), steps[1..]))
  }

  ghost function After(s: State, steps: seq<Step>): State
    requires Runs(s, steps)
    decreases steps
  {
    if steps == [] then s else After(Do(s, steps[0]), steps[1..])
  }

  // ---------- what every reachable state satisfies ----------

  /** The request being worked on and the requests listed after it are all still there. */
  ghost predicate PhaseOk(s: State) {
    var p := s.phase;
    && (!p.Idle? ==> Ascending(p.todo) && forall n :: n in p.todo ==> Req(n) in s.files)
    && (!p.Idle? && !p.Scanning? ==> Req(p.id) in s.files && p.id !in p.todo)
    && (p.Doomed? ==> Decode(s.files[Req(p.id)]).Undecodable? || p.id in s.hist.unread)
    && (p.Ready? || InFlight(p) != multiset{} ==> Decode(s.files[Req(p.id)]) == Parsed(p.record))
    && (InFlight(p) != multiset{} ==> Handling(p.id, p.record, p.outcome) in s.hist.handled)
    && (p.Written? ==> ResultTmp in s.files && s.files[ResultTmp] == Result(p.record, p.outcome))
  }

  ghost predicate IsHandled(h: History, c: Content) {
    c.Result? && exists n :: Handling(n, c.record, c.outcome) in h.handled
  }

  /** How a request that is no longer in the directory may have left it. */
  ghost predicate Accounted(h: History, n: string)
    requires n in h.enqueued
  {
    n in h.unread ||
    match Decode(h.enqueued[n])
    case Parsed(_) => h.completed[n] == 1
    case Undecodable => true
    case Raises => false
  }

  ghost predicate FilesKnown(s: State) {
    && (forall n :: Req(n) in s.files ==> n in s.hist.enqueued && s.hist.enqueued[n] == s.files[Req(n)])
    && (forall n :: n in s.hist.enqueued && Req(n) !in s.files ==> Accounted(s.hist, n))
  }

  ghost predicate CountsOk(s: State) {
    var h := s.hist;
    && h.applied == h.completed + h.interrupted + InFlight(s.phase)
    && (forall n :: h.completed[n] <= 1)
    && (forall n :: n in h.completed ==> Req(n) !in s.files && n in h.enqueued)
  }

  ghost predicate WasHandled(h: History, n: string) {
    exists d :: d in h.handled && d.id == n
  }

  ghost predicate HandledOk(h: History) {
    && (forall c :: c in h.sent ==> c.action in ALLOWED)
    && (forall d :: d in h.handled ==>
          d.id in h.enqueued && Decode(h.enqueued[d.id]) == Parsed(d.record) && d.id in h.applied
          && (d.outcome.InvalidAction? <==> d.record.action !in ALLOWED))
    && (forall n :: n in h.applied ==> WasHandled(h, n))
  }

  ghost predicate ResultOk(s: State) {
    ResultFile in s.files ==> IsHandled(s.hist, s.files[ResultFile])
  }

  ghost predicate Inv(s: State) {
    PhaseOk(s) && FilesKnown(s) && CountsOk(s) && HandledOk(s.hist) && ResultOk(s)
  }

  lemma StageKeepsInv(s: State, n: string, c: Content)
    requires Inv(s) && Enabled(s, Stage(n, c))
    ensures Inv(Do(s, Stage(n, c)))
  {
    var s' := Do(s, Stage(n, c));
    assert FilesKnown(s');
    assert PhaseOk(s');
    assert ResultOk(s') by {
      if ResultFile in s'.files { assert s'.files[ResultFile] == s.files[ResultFile]; }
    }
  }

  /** A name that was never enqueued has no request. */
  lemma FreshName(s: State, n: string)
    requires FilesKnown(s) && n !in s.hist.enqueued
    ensures Req(n) !in s.files
  {
  }

  lemma RenameKeepsPhase(s: State, n: string)
    requires PhaseOk(s) && Enabled(s, Rename(n)) && Req(n) !in s.files
    ensures PhaseOk(Do(s, Rename(n)))
  {
  }

  lemma RenameKeepsFiles(s: State, n: string)
    requires FilesKnown(s) && Enabled(s, Rename(n))
    ensures FilesKnown(Do(s, Rename(n)))
  {
    var s' := Do(s, Rename(n));
    forall m | m in s'.hist.enqueued && Req(m) !in s'.files ensures Accounted(s'.hist, m) {
      assert Accounted(s.hist, m);
    }
  }

  lemma RenameKeepsCounts(s: State, n: string)
    requires CountsOk(s) && Enabled(s, Rename(n))
    ensures CountsOk(Do(s, Rename(n)))
  {
    var s' := Do(s, Rename(n));
    forall m | m in s'.hist.completed ensures Req(m) !in s'.files && m in s'.hist.enqueued {
      assert m in s.hist.completed && m != n;
    }
  }

  lemma RenameKeepsHandled(s: State, n: string)
    requires HandledOk(s.hist) && Enabled(s, Rename(n))
    ensures HandledOk(Do(s, Rename(n)).hist)
  {
    var h := Do(s, Rename(n)).hist;
    forall m | m in h.applied ensures WasHandled(h, m) { assert WasHandled(s.hist, m); }
  }

  lemma RenameKeepsResult(s: State, n: string)
    requires ResultOk(s) && Enabled(s, Rename(n))
    ensures ResultOk(Do(s, Rename(n)))
  {
    var s' := Do(s, Rename(n));
    if ResultFile in s'.files { assert s'.files[ResultFile] == s.files[ResultFile]; }
  }

  lemma RenameKeepsInv(s: State, n: string)
    requires Inv(s) && Enabled(s, Rename(n))
    ensures Inv(Do(s, Rename(n)))
  {
    FreshName(s, n);
    RenameKeepsPhase(s, n);
    RenameKeepsFiles(s, n);
    RenameKeepsCounts(s, n);
    RenameKeepsHandled(s, n);
    RenameKeepsResult(s, n);
  }

  lemma ScanKeepsInv(s: State, step: Step)
    requires Inv(s) && Enabled(s, step) && (step.Snapshot? || step.EndPass?)
    ensures Inv(Do(s, step))
  {
    var s' := Do(s, step);
    assert PhaseOk(s') && CountsOk(s');
    assert s'.files == s.files && s'.hist == s.hist;
  }

  lemma HeadOfListing(todo: seq<string>)
    requires Ascending(todo) && todo != []
    ensures Ascending(todo[1..]) && todo[0] !in todo[1..]
    ensures forall n :: n in todo[1..] ==> n in todo && Before(todo[0], n)
  {
    forall n | n in todo[1..] ensures n in todo && Before(todo[0], n) && n != todo[0] {
      var i :| 0 <= i < |todo[1..]| && todo[1..][i] == n;
      assert todo[i + 1] == n;
    }
  }

  lemma ReadKeepsInv(s: State)
    requires Inv(s) && Enabled(s, Read)
    ensures Inv(Do(s, Read))
  {
    HeadOfListing(s.phase.todo);
    var s' := Do(s, Read);
    assert s'.files == s.files && s'.hist == s.hist;
    assert InFlight(s'.phase) == multiset{};
    assert PhaseOk(s');
  }

  lemma ReadFailsKeepsInv(s: State)
    requires Inv(s) && Enabled(s, ReadFails)
    ensures Inv(Do(s, ReadFails))
  {
    HeadOfListing(s.phase.todo);
    var s' := Do(s, ReadFails);
    assert PhaseOk(s') && CountsOk(s');
    assert ResultOk(s') by {
      if ResultFile in s'.files { assert IsHandled(s.hist, s.files[ResultFile]); }
    }
    assert FilesKnown(s') by {
      forall n | n in s'.hist.enqueued && Req(n) !in s'.files ensures Accounted(s'.hist, n) {
        assert Accounted(s.hist, n);
      }
    }
  }

  lemma ApplyKeepsInv(s: State, sudo: Attempt, plain: Attempt)
    requires Inv(s) && Enabled(s, DoApply(sudo, plain))
    ensures Inv(Do(s, DoApply(sudo, plain)))
  {
    var s' := Do(s, DoApply(sudo, plain));
    var d := Handling(s.phase.id, s.phase.record, s'.phase.outcome);
    assert s'.files == s.files && s'.hist.enqueued == s.hist.enqueued && s'.hist.completed == s.hist.completed;
    assert PhaseOk(s');
    assert FilesKnown(s') by {
      forall n | n in s'.hist.enqueued && Req(n) !in s'.files ensures Accounted(s'.hist, n) {
        assert Accounted(s.hist, n);
      }
    }
    assert CountsOk(s');
    assert HandledOk(s'.hist) by {
      assert d in s'.hist.handled && WasHandled(s'.hist, d.id);
      forall n | n in s'.hist.applied ensures WasHandled(s'.hist, n) {
        if n != d.id { assert WasHandled(s.hist, n); }
      }
    }
    assert ResultOk(s') by {
      if ResultFile in s'.files { assert IsHandled(s.hist, s.files[ResultFile]); }
    }
  }

  lemma PublishKeepsInv(s: State, step: Step)
    requires Inv(s) && Enabled(s, step) && (step.OpenTmp? || step.FinishTmp? || step.Replace?)
    ensures Inv(Do(s, step))
  {
    var s' := Do(s, step);
    assert PhaseOk(s');
    assert FilesKnown(s');
    assert CountsOk(s');
  }

  lemma DiscardKeepsInv(s: State)
    requires Inv(s) && Enabled(s, Discard)
    ensures Inv(Do(s, Discard))
  {
    var s' := Do(s, Discard);
    assert Accounted(s.hist, s.phase.id);
    assert FilesKnown(s');
    assert PhaseOk(s') && CountsOk(s');
    assert ResultOk(s') by {
      if ResultFile in s'.files { assert IsHandled(s.hist, s.files[ResultFile]); }
    }
  }

  lemma UnlinkKeepsInv(s: State)
    requires Inv(s) && Enabled(s, Unlink)
    ensures Inv(Do(s, Unlink))
  {
    var n := s.phase.id;
    var s' := Do(s, Unlink);
    assert s.hist.completed[n] == 0;
    assert CountsOk(s');
    assert Accounted(s'.hist, n);
    assert FilesKnown(s');
    assert PhaseOk(s');
    assert ResultOk(s') by {
      if ResultFile in s'.files { assert IsHandled(s.hist, s.files[ResultFile]); }
    }
  }

  lemma CrashKeepsInv(s: State)
    requires Inv(s) && !s.phase.Idle?
    ensures Inv(Do(s, Crash))
  {
    var s' := Do(s, Crash);
    assert FilesKnown(s');
    assert CountsOk(s');
    assert ResultOk(s') by {
      if ResultFile in s'.files { assert IsHandled(s.hist, s.files[ResultFile]); }
    }
  }

  lemma StepKeepsInv(s: State, step: Step)
    requires Inv(s) && Enabled(s, step)
    ensures Inv(Do(s, step))
  {
    match step
    case Stage(n, c) => StageKeepsInv(s, n, c);
    case Rename(n) => RenameKeepsInv(s, n);
    case Snapshot(_) => ScanKeepsInv(s, step);
    case Read => ReadKeepsInv(s);
    case ReadFails => ReadFailsKeepsInv(s);
    case Discard => DiscardKeepsInv(s);
    case DoApply(sudo, plain) => ApplyKeepsInv(s, sudo, plain);
    case OpenTmp => PublishKeepsInv(s, step);
    case FinishTmp => PublishKeepsInv(s, step);
    case Replace => PublishKeepsInv(s, step);
    case Unlink => UnlinkKeepsInv(s);
    case EndPass => ScanKeepsInv(s, step);
    case Crash => CrashKeepsInv(s);
  }

  lemma {:induction false} RunKeepsInv(s: State, steps: seq<Step>)
    requires Inv(s) && Runs(s, steps)
    ensures Inv(After(s, steps))
    decreases steps
  {
    if steps == [] {
    } else {
      StepKeepsInv(s, steps[0]);
      RunKeepsInv(Do(s, steps[0]), steps[1..]);
    }
  }

  // ---------- safety over every interleaving ----------

  /** Only restart, stop and start ever reach systemctl. */
  lemma OnlyAllowedActions(steps: seq<Step>)
    requires Runs(START, steps)
    ensures forall c :: c in After(START, steps).hist.sent ==> c.action in {"restart", "stop", "start"}
  {
    RunKeepsInv(START, steps);
  }

  /** A well-formed request leaves the directory only after it was handled, unless reading it failed. */
  lemma HandledBeforeRemoved(steps: seq<Step>, n: string)
    requires Runs(START, steps)
    requires var s := After(START, steps);
      n in s.hist.enqueued && Decode(s.hist.enqueued[n]).Parsed? && Req(n) !in s.files && n !in s.hist.unread
    ensures var s := After(START, steps);
      exists o :: Handling(n, Decode(s.hist.enqueued[n]).record, o) in s.hist.handled
  {
    RunKeepsInv(START, steps);
    var s := After(START, steps);
    assert Accounted(s.hist, n);
    assert n in s.hist.applied && WasHandled(s.hist, n);
    var d :| d in s.hist.handled && d.id == n;
    assert d == Handling(n, Decode(s.hist.enqueued[n]).record, d.outcome);
  }

  /** Handling is exactly-once up to crashes: applications are completions plus
      crashes between apply and unlink plus the one in flight, and completion happens once. */
  lemma AppliedOncePlusCrashes(steps: seq<Step>, n: string)
    requires Runs(START, steps)
    ensures var s := After(START, steps); var h := s.hist;
      && h.applied[n] == h.completed[n] + h.interrupted[n] + InFlight(s.phase)[n]
      && h.applied[n] <= 1 + h.interrupted[n]
      && (n in h.completed ==> Req(n) !in s.files)
  {
    RunKeepsInv(START, steps);
    var s := After(START, steps);
    if InFlight(s.phase)[n] > 0 { assert s.phase.id == n && Req(n) in s.files; }
  }

  /** The published result is absent or the whole record of a request that was enqueued and handled. */
  lemma ResultIsComplete(steps: seq<Step>)
    requires Runs(START, steps) && ResultFile in After(START, steps).files
    ensures var s := After(START, steps); var c := s.files[ResultFile];
      && c.Result? && (c.outcome.InvalidAction? <==> c.record.action !in {"restart", "stop", "start"})
      && exists n ::
        && Handling(n, c.record, c.outcome) in s.hist.handled
        && n in s.hist.enqueued && Decode(s.hist.enqueued[n]) == Parsed(c.record)
  {
    RunKeepsInv(START, steps);
    var s := After(START, steps);
    var c := s.files[ResultFile];
    assert IsHandled(s.hist, c);
    var n :| Handling(n, c.record, c.outcome) in s.hist.handled;
    assert Handling(n, c.record, c.outcome).id in s.hist.enqueued;
  }

  // ---------- head-of-line blocking ----------

  /** A request whose decoding raises, still ahead in whatever the watcher is doing. */
  ghost predicate Blocked(s: State, p: string) {
    && Req(p) in s.files && Decode(s.files[Req(p)]).Raises? && p in s.hist.enqueued
    && (s.phase.Idle? || (p in s.phase.todo && Ascending(s.phase.todo)))
    && (!s.phase.Idle? && !s.phase.Scanning? ==> s.phase.id != p && Before(s.phase.id, p))
  }

  /** Such a state arises when a request that raises is published while the watcher is idle. */
  lemma BlockedArises(s: State, p: string)
    requires s.phase.Idle? && Enabled(s, Rename(p)) && Decode(s.files[ReqTmp(p)]).Raises?
    ensures Blocked(Do(s, Rename(p)), p)
  {
  }

  /** Behind such a request nothing is ever handled or removed again, however often the
      watcher restarts, until a read of that request fails with OSError. */
  lemma {:induction false} RaisingRequestBlocks(s: State, steps: seq<Step>, p: string, n: string)
    requires Runs(s, steps) && Blocked(s, p)
    requires p !in After(s, steps).hist.unread
    requires n != p && Before(p, n)
    ensures var t := After(s, steps);
      && Blocked(t, p)
      && t.hist.applied[n] == s.hist.applied[n]
      && (Req(n) in s.files ==> Req(n) in t.files)
    decreases steps
  {
    if steps == [] {
    } else {
      var s1 := Do(s, steps[0]);
      UnreadGrows(s1, steps[1..]);
      BlockedStep(s, steps[0], p, n);
      RaisingRequestBlocks(s1, steps[1..], p, n);
    }
  }

  lemma {:induction false} UnreadGrows(s: State, steps: seq<Step>)
    requires Runs(s, steps)
    ensures s.hist.unread <= After(s, steps).hist.unread
    decreases steps
  {
    if steps == [] {
    } else {
      UnreadGrows(Do(s, steps[0]), steps[1..]);
    }
  }

  lemma BlockedStep(s: State, step: Step, p: string, n: string)
    requires Blocked(s, p) && Enabled(s, step) && p !in Do(s, step).hist.unread
    requires n != p && Before(p, n)
    ensures var t := Do(s, step);
      && Blocked(t, p)
      && t.hist.applied[n] == s.hist.applied[n]
      && (Req(n) in s.files ==> Req(n) in t.files)
  {
    if !s.phase.Idle? && !s.phase.Scanning? && s.phase.id == n {
      StrAntisymmetric(Name(Req(n)), Name(Req(p)));
      GlobSelectsRequests(Req(n), Req(p));
    }
    if s.phase.Scanning? && s.phase.todo != [] {
      HeadOfListing(s.phase.todo);
      assert s.phase.todo[0] == p || p in s.phase.todo[1..];
    }
  }

  // ---------- what a pass completes while requests keep arriving ----------

  /** The request is being worked on or waits in the current pass. */
  ghost predicate Pending(p: Phase, n: string) {
    !p.Idle? && (n in p.todo || (!p.Scanning? && p.id == n))
  }

  /** None of the requests raises; they are gone or pending, and while one is left the pass works on nothing else. */
  ghost predicate Covers(s: State, names: set<string>) {
    && (forall n :: n in names ==> n in s.hist.enqueued && !Decode(s.hist.enqueued[n]).Raises?)
    && (forall n :: n in names && Req(n) in s.files ==>
          Pending(s.phase, n) && forall m :: Pending(s.phase, m) ==> m in names)
  }

  lemma CoversStep(s: State, step: Step, names: set<string>)
    requires Inv(s) && Enabled(s, step) && !step.Crash? && Covers(s, names)
    ensures Covers(Do(s, step), names)
  {
    var t := Do(s, step);
    forall n | n in names && Req(n) in t.files
      ensures Pending(t.phase, n) && forall m :: Pending(t.phase, m) ==> m in names
    {
      StillThere(s, step, n);
      PendingStep(s, step, n, names);
    }
  }

  /** A request that was enqueued before is not put back. */
  lemma StillThere(s: State, step: Step, n: string)
    requires Inv(s) && Enabled(s, step) && n in s.hist.enqueued && Req(n) in Do(s, step).files
    ensures Req(n) in s.files
  {
  }

  lemma PendingStep(s: State, step: Step, n: string, names: set<string>)
    requires Inv(s) && Enabled(s, step) && !step.Crash? && Covers(s, names)
    requires n in names && Req(n) in s.files && Req(n) in Do(s, step).files
    ensures var p := Do(s, step).phase; Pending(p, n) && forall m :: Pending(p, m) ==> m in names
  {
    assert Pending(s.phase, n);
    if s.phase.todo != [] {
      var head := s.phase.todo[0];
      HeadOfListing(s.phase.todo);
      assert Pending(s.phase, head);
      assert forall m :: m in s.phase.todo <==> m == head || m in s.phase.todo[1..];
    }
  }

  lemma {:induction false} CoversRun(s: State, steps: seq<Step>, names: set<string>)
    requires Inv(s) && Runs(s, steps) && Crash !in steps && Covers(s, names)
    ensures Covers(After(s, steps), names)
    decreases steps
  {
    if steps == [] {
    } else {
      StepKeepsInv(s, steps[0]);
      CoversStep(s, steps[0], names);
      assert steps == [steps[0]] + steps[1..];
      CoversRun(Do(s, steps[0]), steps[1..], names);
    }
  }

  /** Whatever is enqueued meanwhile: a pass that no listed request makes raise and that reaches the end
      of its list without a crash has removed every request it listed, each for an accounted reason. */
  lemma PassCompletes(s: State, steps: seq<Step>, n: string)
    requires Inv(s) && s.phase.Scanning? && n in s.phase.todo && Runs(s, steps) && Crash !in steps
    requires forall m :: m in s.phase.todo ==> !Decode(s.files[Req(m)]).Raises?
    requires After(s, steps).phase == Scanning([])
    ensures var t := After(s, steps); Req(n) !in t.files && n in t.hist.enqueued && Accounted(t.hist, n)
  {
    var names := set m | m in s.phase.todo;
    assert Covers(s, names);
    CoversRun(s, steps, names);
    RunKeepsInv(s, steps);
    assert !Pending(After(s, steps).phase, n);
  }

  // ---------- one pass without a crash ----------

  /** The host during one pass: which reads succeed, and how the two systemctl commands end. */
  datatype Host = Host(readable: string -> bool, sudo: string -> Attempt, plain: string -> Attempt)

  datatype PassEnd = PassEnd(files: map<File, Content>, applied: nat, raised: bool)

  function PublishAndUnlink(files: map<File, Content>, n: string, r: Record, o: Outcome): map<File, Content> {
    (files - {ResultTmp})[ResultFile := Result(r, o)] - {Req(n)}
  }

  predicate WellFormed(files: map<File, Content>, n: string, host: Host) {
    Req(n) in files && host.readable(n) && Decode(files[Req(n)]).Parsed?
  }

  predicate Raising(files: map<File, Content>, n: string, host: Host) {
    Req(n) in files && host.readable(n) && Decode(files[Req(n)]).Raises?
  }

  /** The published result is that of this request and tells how the commands ended. */
  ghost predicate Reported(files: map<File, Content>, r: Record, sudo: Attempt, plain: Attempt) {
    && ResultFile in files && files[ResultFile].Result? && files[ResultFile].record == r
    && Truthful(files[ResultFile].outcome, r.action, sudo, plain)
  }

  /** The files after dealing with one request that does not raise. */
  function OneHandled(files: map<File, Content>, n: string, host: Host): map<File, Content> {
    if WellFormed(files, n, host) then
      var r := Decode(files[Req(n)]).record;
      PublishAndUnlink(files, n, r, Apply(r.action, host.sudo(n), host.plain(n)).0)
    else files - {Req(n)}
  }

  function Pass(files: map<File, Content>, order: seq<string>, host: Host): PassEnd
    decreases order
  {
    if order == [] then PassEnd(files, 0, false)
    else if Raising(files, order[0], host) then PassEnd(files, 0, true)
    else
      var rest := Pass(OneHandled(files, order[0], host), order[1..], host);
      rest.(applied := rest.applied + (if WellFormed(files, order[0], host) then 1 else 0))
  }

  /** Index of the first request whose decoding raises, or the number of requests. */
  function Blocker(files: map<File, Content>, order: seq<string>, host: Host): (k: nat)
    ensures k <= |order|
    ensures forall i :: 0 <= i < k ==> !Raising(files, order[i], host)
    ensures k < |order| ==> Raising(files, order[k], host)
  {
    if order == [] || Raising(files, order[0], host) then 0 else 1 + Blocker(files, order[1..], host)
  }

  function CountWellFormed(files: map<File, Content>, names: seq<string>, host: Host): nat {
    if names == [] then 0
    else (if WellFormed(files, names[0], host) then 1 else 0) + CountWellFormed(files, names[1..], host)
  }

  lemma {:induction false} CountCongruent(f: map<File, Content>, g: map<File, Content>, names: seq<string>, host: Host)
    requires forall n :: n in names ==> (Req(n) in f <==> Req(n) in g) && (Req(n) in f ==> f[Req(n)] == g[Req(n)])
    ensures CountWellFormed(f, names, host) == CountWellFormed(g, names, host)
    ensures Blocker(f, names, host) == Blocker(g, names, host)
  {
    if names == [] {
    } else {
      CountCongruent(f, g, names[1..], host);
    }
  }

  /** A pass consumes exactly the requests listed before the first raising one, counts the
      well-formed among them, and raises exactly when there is a raising one. */
  lemma {:induction false} PassExact(files: map<File, Content>, order: seq<string>, host: Host)
    requires Distinct(order) && forall n :: n in order ==> Req(n) in files
    ensures var k := Blocker(files, order, host); var e := Pass(files, order, host);
      && (e.raised <==> k < |order|)
      && e.applied == CountWellFormed(files, order[..k], host)
      && (forall n :: Req(n) in e.files <==> Req(n) in files && n !in order[..k])
      && (forall n :: Req(n) in e.files ==> e.files[Req(n)] == files[Req(n)])
    decreases order
  {
    var k := Blocker(files, order, host);
    if order != [] && !Raising(files, order[0], host) {
      var n, rest, files1 := order[0], order[1..], OneHandled(files, order[0], host);
      DistinctTail(order);
      OneHandledRequests(files, n, host);
      CountCongruent(files, files1, rest, host);
      assert order[..k] == [n] + rest[..k - 1];
      assert forall m :: m in rest[..k - 1] ==> m in rest;
      CountCongruent(files, files1, rest[..k - 1], host);
      PassExact(files1, rest, host);
    } else {
      assert order[..k] == [];
    }
  }

  lemma OneHandledRequests(files: map<File, Content>, n: string, host: Host)
    ensures var g := OneHandled(files, n, host);
      forall m :: (Req(m) in g <==> Req(m) in files && m != n) && (Req(m) in g ==> g[Req(m)] == files[Req(m)])
  {
  }

  lemma DistinctTail(order: seq<string>)
    requires Distinct(order) && order != []
    ensures Distinct(order[1..]) && order[0] !in order[1..]
  {
    assert forall i :: 0 <= i < |order[1..]| ==> order[1..][i] == order[i + 1];
  }

  /** What a pass leaves as the result: that of the last well-formed request before the first raising
      one, telling how its commands ended; without any, the result there was. */
  lemma {:induction false} PassResult(files: map<File, Content>, order: seq<string>, host: Host)
    requires Distinct(order) && forall n :: n in order ==> Req(n) in files
    ensures var k, e := Blocker(files, order, host), Pass(files, order, host).files;
      && (forall i :: IsLastWellFormed(files, order[..k], host, i) ==>
            Reported(e, Decode(files[Req(order[i])]).record, host.sudo(order[i]), host.plain(order[i])))
      && ((forall i :: 0 <= i < k ==> !WellFormed(files, order[i], host)) ==> SameResult(files, e))
    decreases order
  {
    if order == [] || Raising(files, order[0], host) {
    } else {
      var g := OneHandled(files, order[0], host);
      DistinctTail(order);
      OneHandledRequests(files, order[0], host);
      CountCongruent(files, g, order[1..], host);
      PassResult(g, order[1..], host);
      var k, e := Blocker(files, order, host), Pass(files, order, host).files;
      var rest := order[1..][..k - 1];
      assert order[..k][1..] == rest;
      forall i | IsLastWellFormed(files, order[..k], host, i)
        ensures Reported(e, Decode(files[Req(order[i])]).record, host.sudo(order[i]), host.plain(order[i]))
      {
        assert order[..k][i] == order[i];
        if i == 0 {
          forall j | 0 <= j < k - 1 ensures !WellFormed(g, order[1..][j], host) {
            assert order[..k][j + 1] == order[1..][j];
          }
        } else {
          assert order[1..][i - 1] == order[i];
          forall j | i - 1 < j < |rest| ensures !WellFormed(g, rest[j], host) { assert order[..k][j + 1] == rest[j]; }
          assert IsLastWellFormed(g, rest, host, i - 1);
        }
      }
      if forall i :: 0 <= i < k ==> !WellFormed(files, order[i], host) {
        forall j | 0 <= j < k - 1 ensures !WellFormed(g, order[1..][j], host) { assert order[j + 1] == order[1..][j]; }
      }
    }
  }

  predicate IsLastWellFormed(files: map<File, Content>, names: seq<string>, host: Host, i: int) {
    && 0 <= i < |names| && WellFormed(files, names[i], host)
    && forall j :: i < j < |names| ==> !WellFormed(files, names[j], host)
  }

  predicate SameResult(f: map<File, Content>, g: map<File, Content>) {
    (ResultFile in f <==> ResultFile in g) && (ResultFile in f ==> f[ResultFile] == g[ResultFile])
  }

  /** One turn of the loop. */
  lemma PassNext(files: map<File, Content>, order: seq<string>, host: Host, applied: nat)
    requires Distinct(order) && order != [] && forall n :: n in order ==> Req(n) in files
    ensures Distinct(order[1..]) && forall n :: n in order[1..] ==> Req(n) in OneHandled(files, order[0], host)
    ensures AddApplied(applied, Pass(files, order, host)) ==
      if Raising(files, order[0], host) then PassEnd(files, applied, true)
      else AddApplied(applied + (if WellFormed(files, order[0], host) then 1 else 0),
                      Pass(OneHandled(files, order[0], host), order[1..], host))
  {
    DistinctTail(order);
    OneHandledRequests(files, order[0], host);
  }

  /** Without a raising request, one pass handles every well-formed request and empties the queue. */
  lemma PassDrains(files: map<File, Content>, order: seq<string>, host: Host)
    requires IsListing(order, files)
    ensures (forall n :: Req(n) !in Pass(files, order, host).files) <==> (forall n :: !Raising(files, n, host))
  {
    PassExact(files, order, host);
    var k := Blocker(files, order, host);
    if k == |order| {
      assert order[..k] == order;
    } else {
      assert order[k] !in order[..k];
      assert Req(order[k]) in Pass(files, order, host).files;
    }
  }

  lemma {:induction false} RunsSnoc(s: State, steps: seq<Step>, step: Step)
    requires Runs(s, steps) && Enabled(After(s, steps), step)
    ensures Runs(s, steps + [step]) && After(s, steps + [step]) == Do(After(s, steps), step)
    decreases steps
  {
    if steps == [] {
      assert steps + [step] == [step];
    } else {
      RunsSnoc(Do(s, steps[0]), steps[1..], step);
      assert (steps + [step])[1..] == steps[1..] + [step];
    }
  }

  class Watcher {
    var files: map<File, Content>
    ghost var hist: History

    ghost function Now(p: Phase): State
      reads this
    {
      State(files, p, hist)
    }

    constructor (files: map<File, Content>)
      ensures this.files == files && hist == NOTHING
    {
      this.files, hist := files, NOTHING;
    }

    /** `sorted(directory.glob("request-*.json"))` */
    method Listing() returns (order: seq<string>)
      ensures IsListing(order, files)
    {
      var found: seq<string>, rest := [], files.Keys;
      while rest != {}
        invariant rest <= files.Keys
        invariant forall n :: n in found <==> Req(n) in files && Req(n) !in rest
        invariant Distinct(found)
        decreases rest
      {
        var f :| f in rest;
        GlobSelectsRequests(f, f);
        if Globbed(Name(f)) {
          found := found + [f.id];
        }
        rest := rest - {f};
      }
      order := Sort(found, Before);
      SortedListing(found);
    }

    /** Publish through a temporary file that replaces the previous result. */
    method WriteResult(r: Record, o: Outcome)
      modifies this`files
      ensures files == (old(files) - {ResultTmp})[ResultFile := Result(r, o)]
    {
      files := files[ResultTmp := Result(r, o)];
      files := (files - {ResultTmp})[ResultFile := files[ResultTmp]];
    }

    /** The loop body of `process_pending`. */
    method ProcessOne(n: string, host: Host, ghost s0: State, ghost steps: seq<Step>, ghost todo: seq<string>)
      returns (handled: bool, raised: bool, ghost steps': seq<Step>)
      requires Runs(s0, steps) && After(s0, steps) == Now(Scanning(todo))
      requires todo != [] && todo[0] == n && Req(n) in files
      modifies this
      ensures raised <==> Raising(old(files), n, host)
      ensures handled <==> WellFormed(old(files), n, host)
      ensures files == if raised then old(files) else OneHandled(old(files), n, host)
      ensures handled ==> Reported(files, Decode(old(files)[Req(n)]).record, host.sudo(n), host.plain(n))
      ensures Runs(s0, steps') && After(s0, steps') == Now(if raised then Idle else Scanning(todo[1..]))
    {
      ghost var s := Now(Scanning(todo));
      handled, raised := false, false;
      if !host.readable(n) || Decode(files[Req(n)]).Undecodable? {
        steps', s := DropSteps(s0, steps, s, host);
        files := files - {Req(n)};
      } else if Decode(files[Req(n)]).Raises? {
        steps', s := Log(s0, steps, s, Read);
        raised := true;
      } else {
        var r := Decode(files[Req(n)]).record;
        var result := Apply(r.action, host.sudo(n), host.plain(n));
        steps', s := HandleSteps(s0, steps, s, host);
        WriteResult(r, result.0);
        files := files - {Req(n)};
        handled := true;
      }
      hist := s.hist;
    }

    /** `process_pending`: the steps taken are a run of the machine, and the directory, the
        count and whether the pass raised are those of `Pass`. */
    method ProcessPending(host: Host)
      returns (applied: nat, raised: bool, ghost order: seq<string>, ghost steps: seq<Step>)
      modifies this
      ensures IsListing(order, old(files))
      ensures PassEnd(files, applied, raised) == Pass(old(files), order, host)
      ensures Runs(old(Now(Idle)), steps) && After(old(Now(Idle)), steps) == Now(Idle)
    {
      var names := Listing();
      order := names;
      applied, raised := 0, false;
      ghost var s0 := Now(Idle);
      RunsSnoc(s0, [], Snapshot(names));
      steps := [] + [Snapshot(names)];
      var i := 0;
      assert names[0..] == names;
      while i < |names|
        invariant 0 <= i <= |names|
        invariant Distinct(names[i..]) && forall n :: n in names[i..] ==> Req(n) in files
        invariant Runs(s0, steps) && After(s0, steps) == Now(Scanning(names[i..]))
        invariant Pass(old(files), order, host) == AddApplied(applied, Pass(files, names[i..], host))
      {
        PassNext(files, names[i..], host, applied);
        assert names[i..][1..] == names[i + 1..];
        var handled;
        handled, raised, steps := ProcessOne(names[i], host, s0, steps, names[i..]);
        if raised {
          return;
        }
        if handled { applied := applied + 1; }
        i := i + 1;
      }
      RunsSnoc(s0, steps, EndPass);
      steps := steps + [EndPass];
    }
  }

  function AddApplied(k: nat, e: PassEnd): PassEnd { e.(applied := k + e.applied) }

  lemma Log(s0: State, steps: seq<Step>, s: State, step: Step) returns (steps': seq<Step>, s': State)
    requires Runs(s0, steps) && After(s0, steps) == s && Enabled(s, step)
    ensures steps' == steps + [step] && Runs(s0, steps') && After(s0, steps') == s' == Do(s, step)
  {
    RunsSnoc(s0, steps, step);
    steps', s' := steps + [step], Do(s, step);
  }

  /** The steps that drop an unreadable or undecodable request. */
  lemma DropSteps(s0: State, steps: seq<Step>, s: State, host: Host) returns (steps': seq<Step>, s': State)
    requires Runs(s0, steps) && After(s0, steps) == s
    requires s.phase.Scanning? && s.phase.todo != [] && Req(s.phase.todo[0]) in s.files
    requires !host.readable(s.phase.todo[0]) || Decode(s.files[Req(s.phase.todo[0])]).Undecodable?
    ensures Runs(s0, steps') && After(s0, steps') == s'
    ensures s'.phase == Scanning(s.phase.todo[1..]) && s'.files == s.files - {Req(s.phase.todo[0])}
  {
    var n := s.phase.todo[0];
    steps', s' := Log(s0, steps, s, if host.readable(n) then Read else ReadFails);
    steps', s' := Log(s0, steps', s', Discard);
  }

  /** The steps that apply, publish and unlink a well-formed request. */
  lemma HandleSteps(s0: State, steps: seq<Step>, s: State, host: Host) returns (steps': seq<Step>, s': State)
    requires Runs(s0, steps) && After(s0, steps) == s
    requires s.phase.Scanning? && s.phase.todo != [] && WellFormed(s.files, s.phase.todo[0], host)
    ensures Runs(s0, steps') && After(s0, steps') == s'
    ensures s'.phase == Scanning(s.phase.todo[1..]) && s'.files == OneHandled(s.files, s.phase.todo[0], host)
  {
    var n := s.phase.todo[0];
    steps', s' := Log(s0, steps, s, Read);
    steps', s' := Log(s0, steps', s', DoApply(host.sudo(n), host.plain(n)));
    steps', s' := Log(s0, steps', s', OpenTmp);
    steps', s' := Log(s0, steps', s', FinishTmp);
    steps', s' := Log(s0, steps', s', Replace);
    steps', s' := Log(s0, steps', s', Unlink);
  }

  lemma SortedListing(found: seq<string>)
    requires Distinct(found)
    ensures Ascending(Sort(found, Before))
    ensures forall n :: n in Sort(found, Before) <==> n in found
  {
    assert TotalPreorder(Before) by {
      forall a, b ensures Before(a, b) || Before(b, a) { StrTotal(Name(Req(a)), Name(Req(b))); }
      forall a, b, c | Before(a, b) && Before(b, c) ensures Before(a, c) {
        StrTransitive(Name(Req(a)), Name(Req(b)), Name(Req(c)));
      }
    }
    SortSorts(found, Before);
    SortMembers(found, Before);
    DistinctPermutation(found, Sort(found, Before));
  }
}
