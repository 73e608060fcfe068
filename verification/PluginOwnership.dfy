// internal/agent: who owns a plugin process; each step below is one atomic action of one thread.
module PluginOwnership {
  type Name = string

  datatype Entry = Builtin | External(process: nat)

  datatype Call =
    | GetOrDiscover(name: Name)
    | DiscoverExternal(files: seq<string>) // the files of the PATH directories, in order
    | RegisterBuiltin(name: Name)
    | Unregister(name: Name)
    | CloseAll

  datatype Pc =
    | Idle                                // between calls, or between two files of a discovery
    | Asking(name: Name)                  // about to call Get
    | Finding(name: Name)                 // about to look for the executable
    | Launching(name: Name)
    | Awaiting(name: Name, process: nat)  // launched, waiting for its socket
    | Probing(name: Name, process: nat)   // about to call GetInfo
    | Registering(name: Name, entry: Entry)
    | Rejected(process: nat)              // about to call the closer
    | Locking(name: Name)                 // Unregister, before the lock
    | Unregistering(name: Name)           // Unregister, with the lock
    | Deleting(name: Name)                // Unregister, entry closed but still listed
    | LockingAll                          // Close, before the lock
    | ClosingAll(left: set<Name>)         // Close, with the lock; `left` are still to be closed

  datatype Thread = Thread(pc: Pc, files: seq<string>, seen: set<Name>)

  datatype Lock = Free | HeldBy(thread: nat)

  /** Processes are numbered in launch order; `ended` counts how often each was closed or killed. */
  datatype State = State(
    threads: seq<Thread>,
    registry: map<Name, Entry>,
    lock: Lock,
    launched: nat,
    ended: multiset<nat>)

  /** One scheduling decision: the thread to move, the call it begins if it is idle, whether the outside
      world goes its way, and the entry that Close picks next. */
  datatype Move = Move(t: nat, call: Call, ok: bool, pick: Name)

  const PREFIX: string := "deputy-plugin-"

  function PluginName(file: string): Name {
    if |PREFIX| <= |file| && file[..|PREFIX|] == PREFIX then file[|PREFIX|..] else ""
  }

  predicate NeedsLock(pc: Pc) { pc.Asking? || pc.Registering? || pc.Locking? || pc.LockingAll? }

  predicate Critical(pc: Pc) { pc.Unregistering? || pc.Deleting? || pc.ClosingAll? }

  predicate Enabled(s: State, m: Move) {
    m.t < |s.threads|
    && (NeedsLock(s.threads[m.t].pc) ==> s.lock == Free)
    && (s.threads[m.t].pc.ClosingAll? ==> s.threads[m.t].pc.left == {} || m.pick in s.threads[m.t].pc.left)
  }

  function Begin(call: Call): Thread {
    match call
    case GetOrDiscover(n) => Thread(Asking(n), [], {})
    case DiscoverExternal(files) => Thread(Idle, files, {})
    case RegisterBuiltin(n) => Thread(Registering(n, Builtin), [], {})
    case Unregister(n) => Thread(Locking(n), [], {})
    case CloseAll => Thread(LockingAll, [], {})
  }

  /** A discovery takes its next file; the first file of a name wins. */
  function Scan(th: Thread): Thread
    requires th.files != []
  {
    var n := PluginName(th.files[0]);
    if n == "" || n in th.seen then Thread(Idle, th.files[1..], th.seen)
    else Thread(Asking(n), th.files[1..], th.seen + {n})
  }

  /** What closing the entry listed under `n` ends. */
  function ProcessOf(registry: map<Name, Entry>, n: Name): multiset<nat> {
    if n in registry && registry[n].External? then multiset{registry[n].process} else multiset{}
  }

  predicate Refused(registry: map<Name, Entry>, n: Name) { n == "" || n in registry }

  /** The thread after its step. */
  function NextThread(s: State, m: Move): Thread
    requires Enabled(s, m)
  {
    var th := s.threads[m.t];
    match th.pc
    case Idle => if th.files == [] then Begin(m.call) else Scan(th)
    case Asking(n) => th.(pc := if n in s.registry then Idle else Finding(n))
    case Finding(n) => th.(pc := if m.ok then Launching(n) else Idle)
    case Launching(n) => th.(pc := if m.ok then Awaiting(n, s.launched) else Idle)
    case Awaiting(n, p) => th.(pc := if m.ok then Probing(n, p) else Idle)
    case Probing(n, p) => th.(pc := if m.ok then Registering(n, External(p)) else Rejected(p))
    case Registering(n, e) =>
      th.(pc := if Refused(s.registry, n) && e.External? then Rejected(e.process) else Idle)
    case Rejected(_) => th.(pc := Idle)
    case Locking(n) => th.(pc := Unregistering(n))
    case Unregistering(n) => th.(pc := if n in s.registry then Deleting(n) else Idle)
    case Deleting(_) => th.(pc := Idle)
    case LockingAll => th.(pc := ClosingAll(s.registry.Keys))
    case ClosingAll(left) => th.(pc := if left == {} then Idle else ClosingAll(left - {m.pick}))
  }

  function NextRegistry(s: State, m: Move): map<Name, Entry>
    requires Enabled(s, m)
  {
    match s.threads[m.t].pc
    case Registering(n, e) => if Refused(s.registry, n) then s.registry else s.registry[n := e]
    case Deleting(n) => s.registry - {n}
    case ClosingAll(left) => if left == {} then map[] else s.registry
    case _ => s.registry
  }

  /** The processes that a step closes or kills. */
  function Ends(s: State, m: Move): multiset<nat>
    requires Enabled(s, m)
  {
    match s.threads[m.t].pc
    case Awaiting(_, p) => if m.ok then multiset{} else multiset{p}
    case Rejected(p) => multiset{p}
    case Unregistering(n) => ProcessOf(s.registry, n)
    case ClosingAll(left) => if left == {} then multiset{} else ProcessOf(s.registry, m.pick)
    case _ => multiset{}
  }

  function NextLock(s: State, m: Move): Lock
    requires Enabled(s, m)
  {
    if Critical(NextThread(s, m).pc) then HeldBy(m.t)
    else if Critical(s.threads[m.t].pc) then Free
    else s.lock
  }

  function Next(s: State, m: Move): State
    requires Enabled(s, m)
  {
    State(
      s.threads[m.t := NextThread(s, m)],
      NextRegistry(s, m),
      NextLock(s, m),
      if s.threads[m.t].pc.Launching? && m.ok then s.launched + 1 else s.launched,
      s.ended + Ends(s, m))
  }

  function Step(s: State, m: Move): State { if Enabled(s, m) then Next(s, m) else s }

  function Run(s: State, moves: seq<Move>): State
    decreases |moves|
  {
    if moves == [] then s else Run(Step(s, moves[0]), moves[1..])
  }

  /** Any number of idle threads; builtin plugins may be registered already. */
  predicate Init(s: State) {
    (forall t :: 0 <= t < |s.threads| ==> s.threads[t] == Thread(Idle, [], {}))
    && (forall n :: n in s.registry ==> s.registry[n] == Builtin)
    && s.lock == Free && s.launched == 0 && s.ended == multiset{}
  }

  // ---- The lock ----

  predicate ThreadInv(s: State, t: nat)
    requires t < |s.threads|
  {
    var pc := s.threads[t].pc;
    (Critical(pc) ==> s.lock == HeldBy(t))
    && (pc.Deleting? ==> pc.name in s.registry)
    && (pc.ClosingAll? ==> pc.left <= s.registry.Keys)
  }

  ghost predicate LockInv(s: State) {
    (forall t: nat :: t < |s.threads| ==> ThreadInv(s, t))
    && (s.lock.HeldBy? ==> s.lock.thread < |s.threads| && Critical(s.threads[s.lock.thread].pc))
  }

  /** While another thread is inside, nobody changes the lock or the registry. */
  lemma StepKeepsOther(s: State, m: Move, u: nat)
    requires Enabled(s, m) && ThreadInv(s, m.t) && u < |s.threads| && u != m.t && ThreadInv(s, u)
    ensures ThreadInv(Next(s, m), u)
    ensures Critical(s.threads[u].pc) ==> Next(s, m).registry == s.registry && Next(s, m).lock == s.lock
  {}

  lemma StepKeepsLock(s: State, m: Move)
    requires LockInv(s)
    ensures LockInv(Step(s, m))
  {
    if Enabled(s, m) {
      var s' := Next(s, m);
      assert ThreadInv(s, m.t);
      forall u: nat | u < |s'.threads| ensures ThreadInv(s', u) {
        if u != m.t {
          StepKeepsOther(s, m, u);
        }
      }
    }
  }

  // ---- Where a process is ----

  predicate Holds(pc: Pc, p: nat) {
    ((pc.Awaiting? || pc.Probing? || pc.Rejected?) && pc.process == p)
    || (pc.Registering? && pc.entry == External(p))
  }

  /** How many threads hold `p`. */
  function Holders(threads: seq<Thread>, p: nat): nat {
    if threads == [] then 0 else (if Holds(threads[0].pc, p) then 1 else 0) + Holders(threads[1..], p)
  }

  /** The names that a call inside the lock has closed but not yet removed. */
  function Closed(pc: Pc, registry: map<Name, Entry>): set<Name> {
    match pc
    case Deleting(n) => {n}
    case ClosingAll(left) => registry.Keys - left
    case _ => {}
  }

  function ClosedNames(s: State): set<Name> {
    if s.lock.HeldBy? && s.lock.thread < |s.threads| then Closed(s.threads[s.lock.thread].pc, s.registry) else {}
  }

  function Bearers(registry: map<Name, Entry>, closed: set<Name>, p: nat): set<Name> {
    set n | n in registry && n !in closed && registry[n] == External(p)
  }

  /** The names under which `p` is registered and not yet closed. */
  function Names(s: State, p: nat): set<Name> { Bearers(s.registry, ClosedNames(s), p) }

  /** Every launched process is in exactly one place, a process not launched yet nowhere. */
  predicate Placed(s: State, p: nat) {
    Holders(s.threads, p) + |Names(s, p)| + s.ended[p] == if p < s.launched then 1 else 0
  }

  ghost predicate Inv(s: State) { LockInv(s) && forall p: nat :: Placed(s, p) }

  lemma {:induction false} HoldersUpdate(threads: seq<Thread>, t: nat, th: Thread, p: nat)
    requires t < |threads|
    ensures Holders(threads[t := th], p) + (if Holds(threads[t].pc, p) then 1 else 0)
         == Holders(threads, p) + (if Holds(th.pc, p) then 1 else 0)
  {
    if t == 0 {
      assert threads[t := th][1..] == threads[1..];
    } else {
      assert threads[t := th][1..] == threads[1..][t - 1 := th];
      HoldersUpdate(threads[1..], t - 1, th, p);
    }
  }

  // How a step moves the names of `p`: a registration adds one, a close inside the lock takes one away,
  // and the removal of a closed entry changes nothing.

  lemma RegisterNames(registry: map<Name, Entry>, n: Name, e: Entry, p: nat)
    requires n !in registry
    ensures |Bearers(registry[n := e], {}, p)| == |Bearers(registry, {}, p)| + if e == External(p) then 1 else 0
  {
    var before := Bearers(registry, {}, p);
    assert Bearers(registry[n := e], {}, p) == if e == External(p) then before + {n} else before;
  }

  lemma CloseNames(registry: map<Name, Entry>, closed: set<Name>, n: Name, p: nat)
    requires n in registry && n !in closed
    ensures |Bearers(registry, closed + {n}, p)| + ProcessOf(registry, n)[p] == |Bearers(registry, closed, p)|
  {
    var before := Bearers(registry, closed, p);
    assert Bearers(registry, closed + {n}, p) == before - {n};
    assert n in before <==> registry[n] == External(p);
  }

  lemma DeleteNames(registry: map<Name, Entry>, closed: set<Name>, p: nat)
    ensures Bearers(registry - closed, {}, p) == Bearers(registry, closed, p)
  {}

  /** The lock holder's step decides which names are closed; a step outside the lock leaves them. */
  lemma ClosedNamesNext(s: State, m: Move)
    requires Enabled(s, m) && LockInv(s)
    ensures Critical(s.threads[m.t].pc) || Critical(NextThread(s, m).pc) ==>
              ClosedNames(Next(s, m)) == Closed(NextThread(s, m).pc, NextRegistry(s, m))
    ensures Critical(s.threads[m.t].pc) ==> ClosedNames(s) == Closed(s.threads[m.t].pc, s.registry)
    ensures !Critical(s.threads[m.t].pc) && NeedsLock(s.threads[m.t].pc) ==> ClosedNames(s) == {}
    ensures s.threads[m.t].pc.Registering? ==> ClosedNames(Next(s, m)) == {}
    ensures !Critical(s.threads[m.t].pc) && !NeedsLock(s.threads[m.t].pc) ==> ClosedNames(Next(s, m)) == ClosedNames(s)
  {
    assert ThreadInv(s, m.t);
  }

  /** The step conserves: what the names of `p` lose, the ended count gains, and the other way round. */
  lemma NamesNext(s: State, m: Move, p: nat)
    requires Enabled(s, m) && LockInv(s)
    requires NeedsLock(s.threads[m.t].pc) || Critical(s.threads[m.t].pc)
    ensures |Names(Next(s, m), p)| + Ends(s, m)[p]
         == |Names(s, p)| + if s.threads[m.t].pc.Registering? && s.threads[m.t].pc.entry == External(p)
                                && !Refused(s.registry, s.threads[m.t].pc.name) then 1 else 0
  {
    assert ThreadInv(s, m.t);
    ClosedNamesNext(s, m);
    match s.threads[m.t].pc
    case Asking(n) =>
    case Registering(n, e) =>
      if !Refused(s.registry, n) {
        RegisterNames(s.registry, n, e, p);
      }
    case Locking(n) =>
    case Unregistering(n) =>
      if n in s.registry {
        CloseNames(s.registry, {}, n, p);
        assert {} + {n} == {n};
      }
    case Deleting(n) => DeleteNames(s.registry, {n}, p);
    case LockingAll => assert s.registry.Keys - s.registry.Keys == {};
    case ClosingAll(left) =>
      if left == {} {
        assert Names(Next(s, m), p) == {} == Names(s, p);
      } else {
        CloseNames(s.registry, s.registry.Keys - left, m.pick, p);
        assert s.registry.Keys - (left - {m.pick}) == (s.registry.Keys - left) + {m.pick};
      }
  }

  /** Inside the lock or about to take it: a thread's process moves to the registry or back. */
  lemma HoldsInside(s: State, m: Move, p: nat)
    requires Enabled(s, m)
    requires NeedsLock(s.threads[m.t].pc) || Critical(s.threads[m.t].pc)
    ensures var th := s.threads[m.t];
            Holds(th.pc, p) == (th.pc.Registering? && th.pc.entry == External(p))
            && Holds(NextThread(s, m).pc, p) == (Holds(th.pc, p) && Refused(s.registry, th.pc.name))
  {
    match s.threads[m.t].pc
    case Asking(n) =>
    case Registering(n, e) =>
    case Locking(n) =>
    case Unregistering(n) =>
    case Deleting(n) =>
    case LockingAll =>
    case ClosingAll(left) =>
  }

  /** Outside the lock: a process appears in the thread's hands at its launch and leaves them at its end. */
  lemma HoldsOutside(s: State, m: Move, p: nat)
    requires Enabled(s, m)
    requires !NeedsLock(s.threads[m.t].pc) && !Critical(s.threads[m.t].pc)
    ensures NextRegistry(s, m) == s.registry
    ensures (if Holds(NextThread(s, m).pc, p) then 1 else 0) + Ends(s, m)[p]
         == (if Holds(s.threads[m.t].pc, p) then 1 else 0)
            + (if s.threads[m.t].pc.Launching? && m.ok && p == s.launched then 1 else 0)
  {
    match s.threads[m.t].pc
    case Idle =>
    case Finding(n) =>
    case Launching(n) =>
    case Awaiting(n, q) =>
    case Probing(n, q) =>
    case Rejected(q) =>
  }

  lemma StepKeepsPlaced(s: State, m: Move, p: nat)
    requires Enabled(s, m) && LockInv(s) && Placed(s, p)
    ensures Placed(Next(s, m), p)
  {
    HoldersUpdate(s.threads, m.t, NextThread(s, m), p);
    if NeedsLock(s.threads[m.t].pc) || Critical(s.threads[m.t].pc) {
      NamesNext(s, m, p);
      HoldsInside(s, m, p);
    } else {
      ClosedNamesNext(s, m);
      HoldsOutside(s, m, p);
      assert Names(Next(s, m), p) == Names(s, p);
    }
  }

  lemma StepKeepsInv(s: State, m: Move)
    requires Inv(s)
    ensures Inv(Step(s, m))
  {
    StepKeepsLock(s, m);
    if Enabled(s, m) {
      forall p: nat ensures Placed(Next(s, m), p) {
        assert Placed(s, p);
        StepKeepsPlaced(s, m, p);
      }
    }
  }

  lemma {:induction false} IdleHoldsNothing(threads: seq<Thread>, p: nat)
    requires forall t :: 0 <= t < |threads| ==> threads[t].pc == Idle
    ensures Holders(threads, p) == 0
  {
    if threads != [] {
      IdleHoldsNothing(threads[1..], p);
    }
  }

  lemma InitInv(s: State)
    requires Init(s)
    ensures Inv(s)
  {
    forall p: nat ensures Placed(s, p) {
      IdleHoldsNothing(s.threads, p);
      assert Names(s, p) == {};
    }
  }

  lemma {:induction false} RunKeepsInv(s: State, moves: seq<Move>)
    requires Inv(s)
    ensures Inv(Run(s, moves))
    decreases |moves|
  {
    if moves != [] {
      StepKeepsInv(s, moves[0]);
      RunKeepsInv(Step(s, moves[0]), moves[1..]);
    }
  }

  /** In every interleaving, a launched process is held by one thread, or registered under one name, or
      has been ended once: exactly one of the three. */
  lemma OneOwner(s0: State, moves: seq<Move>, p: nat)
    requires Init(s0)
    ensures var s := Run(s0, moves);
            Holders(s.threads, p) + |Names(s, p)| + s.ended[p] == if p < s.launched then 1 else 0
  {
    InitInv(s0);
    RunKeepsInv(s0, moves);
    assert Placed(Run(s0, moves), p);
  }

  /** Whoever finds a plugin in an unlocked registry finds a running process, and nobody else will end it. */
  lemma RegisteredIsRunning(s0: State, moves: seq<Move>, n: Name)
    requires Init(s0)
    ensures var s := Run(s0, moves);
            s.lock == Free && n in s.registry && s.registry[n].External? ==>
              var p := s.registry[n].process;
              p < s.launched && s.ended[p] == 0 && Holders(s.threads, p) == 0
              && forall n' :: n' in s.registry && s.registry[n'] == External(p) ==> n' == n
  {
    var s := Run(s0, moves);
    if s.lock == Free && n in s.registry && s.registry[n].External? {
      var p := s.registry[n].process;
      OneOwner(s0, moves, p);
      assert n in Names(s, p);
      OnlyOne(Names(s, p), n);
      assert forall n' :: n' in s.registry && s.registry[n'] == External(p) ==> n' in Names(s, p);
    }
  }

  lemma OnlyOne(names: set<Name>, n: Name)
    requires n in names && |names| <= 1
    ensures names == {n}
  {
    assert |names - {n}| == 0;
  }

  /** Once every call has returned, no process is lost: it is listed under one name and running, or it is
      unlisted and was ended once. */
  lemma NothingLeaks(s0: State, moves: seq<Move>, p: nat)
    requires Init(s0)
    requires p < Run(s0, moves).launched
    requires forall t :: 0 <= t < |Run(s0, moves).threads| ==> Run(s0, moves).threads[t].pc == Idle
    ensures var s := Run(s0, moves);
            s.ended[p] == (if exists n :: n in s.registry && s.registry[n] == External(p) then 0 else 1)
  {
    var s := Run(s0, moves);
    OneOwner(s0, moves, p);
    InitInv(s0);
    RunKeepsInv(s0, moves);
    IdleHoldsNothing(s.threads, p);
    if n :| n in s.registry && s.registry[n] == External(p) {
      assert n in Names(s, p);
    } else {
      assert Names(s, p) == {};
    }
  }

  // ---- Registered names stay ----

  /** The moves that remove the entry of `n`: the deletion of an Unregister of `n`, and the emptying by a Close. */
  predicate Removes(s: State, m: Move, n: Name) {
    Enabled(s, m) && (s.threads[m.t].pc == Deleting(n) || s.threads[m.t].pc == ClosingAll({}))
  }

  predicate Removed(s: State, moves: seq<Move>, n: Name)
    decreases |moves|
  {
    moves != [] && (Removes(s, moves[0], n) || Removed(Step(s, moves[0]), moves[1..], n))
  }

  /** A registered name keeps its entry, over any run in which nobody unregisters it or closes the registry. */
  lemma {:induction false} EntryStays(s: State, moves: seq<Move>, n: Name)
    requires n in s.registry && !Removed(s, moves, n)
    ensures n in Run(s, moves).registry && Run(s, moves).registry[n] == s.registry[n]
    decreases |moves|
  {
    if moves != [] {
      EntryStays(Step(s, moves[0]), moves[1..], n);
    }
  }

  // ---- What a call has done when it returns ----

  /** The run ends when thread `t` first is idle. */
  predicate Returns(s: State, moves: seq<Move>, t: nat)
    decreases |moves|
  {
    t < |s.threads|
    && if moves == [] then s.threads[t].pc == Idle
       else s.threads[t].pc != Idle && Returns(Step(s, moves[0]), moves[1..], t)
  }

  /** The state that thread `t` meets when it first moves: for a call that waits for the lock, the one in which
      it takes the lock. */
  function Met(s: State, moves: seq<Move>, t: nat): State
    decreases |moves|
  {
    if moves == [] || (moves[0].t == t && Enabled(s, moves[0])) then s else Met(Step(s, moves[0]), moves[1..], t)
  }

  lemma OthersWait(s: State, m: Move, t: nat)
    requires Inv(s) && t < |s.threads| && !(m.t == t && Enabled(s, m))
    ensures Step(s, m).threads[t] == s.threads[t] && |Step(s, m).threads| == |s.threads|
    ensures Critical(s.threads[t].pc) ==> Step(s, m).registry == s.registry
    ensures s.ended <= Step(s, m).ended
  {
    assert ThreadInv(s, t);
    if Enabled(s, m) {
      assert ThreadInv(s, m.t);
      StepKeepsOther(s, m, t);
    }
  }

  lemma EndedOnce(s: State, p: nat)
    requires Inv(s)
    ensures s.ended[p] <= 1
  {
    assert Placed(s, p);
  }

  /** The external plugins of `registry` whose names are not in `left` have been ended. */
  ghost predicate AllEnded(registry: map<Name, Entry>, left: set<Name>, ended: multiset<nat>) {
    forall n :: n in registry && n !in left && registry[n].External? ==> ended[registry[n].process] >= 1
  }

  lemma {:induction false} ClosingCloses(s: State, moves: seq<Move>, t: nat)
    requires Inv(s) && Returns(s, moves, t) && s.threads[t].pc.ClosingAll?
    requires AllEnded(s.registry, s.threads[t].pc.left, s.ended)
    ensures Run(s, moves).registry == map[] && AllEnded(s.registry, {}, Run(s, moves).ended)
    decreases |moves|
  {
    var m := moves[0];
    var next := Step(s, m);
    StepKeepsInv(s, m);
    if m.t == t && Enabled(s, m) {
      if s.threads[t].pc.left == {} {
        assert moves[1..] == [];
      } else {
        assert AllEnded(s.registry, next.threads[t].pc.left, next.ended) by {
          assert m.pick in s.registry ==> next.ended == s.ended + ProcessOf(s.registry, m.pick);
        }
        ClosingCloses(next, moves[1..], t);
      }
    } else {
      OthersWait(s, m, t);
      ClosingCloses(next, moves[1..], t);
    }
  }

  ghost predicate EachEndedOnce(registry: map<Name, Entry>, ended: multiset<nat>) {
    forall n :: n in registry && registry[n].External? ==> ended[registry[n].process] == 1
  }

  /** When `Close` returns the registry is empty, and every process listed when it took the lock has been
      ended exactly once. */
  lemma {:induction false} CloseCloses(s: State, moves: seq<Move>, t: nat)
    requires Inv(s) && Returns(s, moves, t) && s.threads[t].pc == LockingAll
    ensures Run(s, moves).registry == map[]
    ensures EachEndedOnce(Met(s, moves, t).registry, Run(s, moves).ended)
    decreases |moves|
  {
    var m := moves[0];
    StepKeepsInv(s, m);
    if m.t == t && Enabled(s, m) {
      ClosingCloses(Step(s, m), moves[1..], t);
      RunKeepsInv(s, moves);
      forall n | n in s.registry && s.registry[n].External? ensures Run(s, moves).ended[s.registry[n].process] == 1 {
        EndedOnce(Run(s, moves), s.registry[n].process);
      }
    } else {
      OthersWait(s, m, t);
      CloseCloses(Step(s, m), moves[1..], t);
    }
  }

  lemma {:induction false} DeletingDeletes(s: State, moves: seq<Move>, t: nat)
    requires Inv(s) && Returns(s, moves, t) && s.threads[t].pc.Deleting?
    ensures Run(s, moves).registry == s.registry - {s.threads[t].pc.name} && s.ended <= Run(s, moves).ended
    decreases |moves|
  {
    var m := moves[0];
    StepKeepsInv(s, m);
    if m.t == t && Enabled(s, m) {
      assert moves[1..] == [];
    } else {
      OthersWait(s, m, t);
      DeletingDeletes(Step(s, m), moves[1..], t);
    }
  }

  lemma {:induction false} UnregisteringRemoves(s: State, moves: seq<Move>, t: nat)
    requires Inv(s) && Returns(s, moves, t) && s.threads[t].pc.Unregistering?
    ensures Run(s, moves).registry == s.registry - {s.threads[t].pc.name}
    ensures ProcessOf(s.registry, s.threads[t].pc.name) <= Run(s, moves).ended
    decreases |moves|
  {
    var m := moves[0];
    StepKeepsInv(s, m);
    if m.t == t && Enabled(s, m) {
      if s.threads[t].pc.name in s.registry {
        DeletingDeletes(Step(s, m), moves[1..], t);
      } else {
        assert moves[1..] == [];
      }
    } else {
      OthersWait(s, m, t);
      UnregisteringRemoves(Step(s, m), moves[1..], t);
    }
  }

  /** When `Unregister` returns, the registry is the one it met without the name, and the process that was
      listed under the name has been ended exactly once. */
  lemma {:induction false} UnregisterRemoves(s: State, moves: seq<Move>, t: nat, n: Name)
    requires Inv(s) && Returns(s, moves, t) && s.threads[t].pc == Locking(n)
    ensures var met, end := Met(s, moves, t), Run(s, moves);
            end.registry == met.registry - {n}
            && (n in met.registry && met.registry[n].External? ==> end.ended[met.registry[n].process] == 1)
    decreases |moves|
  {
    var m := moves[0];
    StepKeepsInv(s, m);
    if m.t == t && Enabled(s, m) {
      UnregisteringRemoves(Step(s, m), moves[1..], t);
      RunKeepsInv(s, moves);
      if n in s.registry && s.registry[n].External? {
        EndedOnce(Run(s, moves), s.registry[n].process);
        assert ProcessOf(s.registry, n)[s.registry[n].process] == 1;
      }
    } else {
      OthersWait(s, m, t);
      UnregisterRemoves(Step(s, m), moves[1..], t, n);
    }
  }

  /** When `RegisterBuiltin` returns, the name is listed, as a builtin unless it was listed before; nothing
      else has changed since it took the lock. An empty name is refused. */
  lemma {:induction false} RegisterLists(s: State, moves: seq<Move>, t: nat, n: Name)
    requires Inv(s) && Returns(s, moves, t) && s.threads[t].pc == Registering(n, Builtin)
    ensures var met := Met(s, moves, t).registry;
            Run(s, moves).registry == if n == "" || n in met then met else met[n := Builtin]
    decreases |moves|
  {
    var m := moves[0];
    StepKeepsInv(s, m);
    if m.t == t && Enabled(s, m) {
      assert moves[1..] == [];
    } else {
      OthersWait(s, m, t);
      RegisterLists(Step(s, m), moves[1..], t, n);
    }
  }

  // ---- Discoveries ----

  /** A discovery tries each name at most once: with the first of the files that carry it. */
  lemma FirstFileWins(th: Thread, n: Name)
    requires th.files != []
    ensures th.seen <= Scan(th).seen && Scan(th).files == th.files[1..]
    ensures Scan(th).pc == Asking(n) <==> n != "" && n !in th.seen && th.files[0] == "deputy-plugin-" + n
    ensures Scan(th).pc == Asking(n) ==> n in Scan(th).seen
  {
    PluginNameIs(th.files[0]);
  }

  /** Everything the thread asks of the outside world goes its way. */
  predicate AllWell(moves: seq<Move>, t: nat) { forall k :: 0 <= k < |moves| && moves[k].t == t ==> moves[k].ok }

  /** The thread is in the middle of a discovery of `n`. */
  predicate Discovers(pc: Pc, n: Name) {
    (pc.Asking? || pc.Finding? || pc.Launching? || pc.Awaiting? || pc.Probing? || (pc.Registering? && pc.entry.External?))
    && pc.name == n
  }

  predicate Pending(th: Thread, n: Name) {
    Discovers(th.pc, n) || (n !in th.seen && exists k :: 0 <= k < |th.files| && th.files[k] == "deputy-plugin-" + n)
  }

  lemma PluginNameIs(file: string)
    ensures PluginName(file) != "" ==> file == "deputy-plugin-" + PluginName(file)
    ensures forall n :: file == "deputy-plugin-" + n ==> PluginName(file) == n
  {
    assert |PREFIX| <= |file| ==> file == file[..|PREFIX|] + file[|PREFIX|..];
    forall n | file == "deputy-plugin-" + n ensures PluginName(file) == n {
      assert file[..|PREFIX|] == PREFIX && file[|PREFIX|..] == n;
    }
  }

  lemma DiscoveryGoesOn(s: State, m: Move, n: Name)
    requires Enabled(s, m) && m.ok && n != "" && Pending(s.threads[m.t], n)
    ensures n in Next(s, m).registry || n in s.registry || Pending(NextThread(s, m), n)
  {
    var th := s.threads[m.t];
    if !Discovers(th.pc, n) {
      var k :| 0 <= k < |th.files| && th.files[k] == "deputy-plugin-" + n;
      if th.pc == Idle {
        PluginNameIs(th.files[0]);
        if k > 0 {
          assert th.files[1..][k - 1] == th.files[k];
        }
      } else {
        assert NextThread(s, m).files == th.files && NextThread(s, m).seen == th.seen;
      }
    }
  }

  /** A discovery that goes well leads to the name being listed: at its end, and as long as nobody unregisters
      the name or closes the registry. */
  lemma {:induction false} DiscoveryLists(s: State, moves: seq<Move>, t: nat, n: Name)
    requires t < |s.threads| && n != "" && AllWell(moves, t) && !Removed(s, moves, n)
    requires n in s.registry || Pending(s.threads[t], n)
    ensures var end := Run(s, moves);
            |end.threads| == |s.threads| && (n in end.registry || Pending(end.threads[t], n))
    decreases |moves|
  {
    if moves != [] {
      var m := moves[0];
      if Enabled(s, m) && m.t == t && n !in s.registry {
        DiscoveryGoesOn(s, m, n);
      }
      assert AllWell(moves[1..], t) by {
        assert forall k :: 0 <= k < |moves[1..]| ==> moves[1..][k] == moves[k + 1];
      }
      DiscoveryLists(Step(s, m), moves[1..], t, n);
    }
  }

  /** So when `DiscoverExternal` or `GetOrDiscover` has gone well and returned, every name it was after is
      listed, unless someone has removed it meanwhile. */
  lemma DiscoveredAreListed(s: State, moves: seq<Move>, t: nat, call: Call, n: Name)
    requires t < |s.threads| && s.threads[t] == Begin(call) && n != ""
    requires call == GetOrDiscover(n) || (call.DiscoverExternal? && exists k :: 0 <= k < |call.files| && call.files[k] == "deputy-plugin-" + n)
    requires AllWell(moves, t) && !Removed(s, moves, n)
    ensures var end := Run(s, moves);
            t < |end.threads| && (end.threads[t].pc == Idle && end.threads[t].files == [] ==> n in end.registry)
  {
    DiscoveryLists(s, moves, t, n);
  }

  // ---- Nobody is stuck ----

  /** Some thread can always move, and a thread that cannot waits for one that holds the lock and can. */
  lemma NobodyIsStuck(s0: State, moves: seq<Move>, t: nat) returns (m: Move)
    requires Init(s0) && t < |s0.threads|
    ensures Enabled(Run(s0, moves), m)
    ensures var s := Run(s0, moves);
            m.t == t || (t < |s.threads| && NeedsLock(s.threads[t].pc) && s.lock == HeldBy(m.t))
  {
    InitInv(s0);
    RunKeepsInv(s0, moves);
    RunKeepsThreads(s0, moves);
    var s := Run(s0, moves);
    var u := if NeedsLock(s.threads[t].pc) && s.lock.HeldBy? then s.lock.thread else t;
    var pick: Name := "";
    if s.threads[u].pc.ClosingAll? && s.threads[u].pc.left != {} {
      pick :| pick in s.threads[u].pc.left;
    }
    m := Move(u, CloseAll, true, pick);
  }

  lemma {:induction false} RunKeepsThreads(s: State, moves: seq<Move>)
    ensures |Run(s, moves).threads| == |s.threads|
    decreases |moves|
  {
    if moves != [] {
      RunKeepsThreads(Step(s, moves[0]), moves[1..]);
    }
  }
}
