// internal/license/license.go: concurrent lookups; each step below is one atomic action of one caller.
module LicenseFlight {
  type Key = string
  type Licenses = seq<string>

  datatype Pc =
    | Start                       // about to look at the memo
    | AskDisk                     // memo missed
    | FromDisk(v: Licenses)       // disk hit, about to fill the memo
    | Join                        // both missed, about to enter the flight group
    | Waiting(leader: nat)        // another caller's flight is under way
    | Leading                     // owns the flight, about to look at the memo again
    | Resolving                   // asking the registries
    | Resolved(v: Licenses)       // about to write the disk cache
    | Written(v: Licenses)        // about to fill the memo
    | Finishing(v: Licenses)      // about to end the flight
    | Done(v: Licenses)

  datatype Caller = Caller(key: Key, pc: Pc)

  /** `usesDisk` is constantly true for registry lookups; a module scan without a version skips the disk.
      `outcome` holds what a finished flight returned, under its leader; `resolves` counts resolves begun. */
  datatype State = State(
    callers: seq<Caller>,
    usesDisk: set<Key>,
    memo: map<Key, Licenses>,
    disk: map<Key, Licenses>,
    flights: map<Key, nat>,
    outcome: map<nat, Licenses>,
    resolves: multiset<Key>)
  {
    predicate DiskHit(k: Key) { k in usesDisk && k in disk && disk[k] != [] }
  }

  predicate Enabled(s: State, t: nat) {
    t < |s.callers| && !s.callers[t].pc.Done? && (s.callers[t].pc.Waiting? ==> s.callers[t].pc.leader in s.outcome)
  }

  /** One step of caller `t`; a resolve may come back with any list `v`. */
  function Next(s: State, t: nat, v: Licenses): State
    requires Enabled(s, t)
  {
    State(s.callers[t := Caller(s.callers[t].key, NextPc(s, t, v))], s.usesDisk,
          NextMemo(s, t), NextDisk(s, t), NextFlights(s, t), NextOutcome(s, t), NextResolves(s, t))
  }

  function NextPc(s: State, t: nat, v: Licenses): Pc
    requires Enabled(s, t)
  {
    var k := s.callers[t].key;
    match s.callers[t].pc
    case Start => if k in s.memo then Done(s.memo[k]) else AskDisk
    case AskDisk => if s.DiskHit(k) then FromDisk(s.disk[k]) else Join
    case FromDisk(w) => Done(w)
    case Join => if k in s.flights then Waiting(s.flights[k]) else Leading
    case Waiting(leader) => Done(s.outcome[leader])
    case Leading => if k in s.memo then Finishing(s.memo[k]) else Resolving
    case Resolving => Resolved(v)
    case Resolved(w) => Written(w)
    case Written(w) => Finishing(w)
    case Finishing(w) => Done(w)
  }

  function NextMemo(s: State, t: nat): map<Key, Licenses>
    requires Enabled(s, t)
  {
    match s.callers[t].pc
    case FromDisk(w) => s.memo[s.callers[t].key := w]
    case Written(w) => s.memo[s.callers[t].key := w]
    case _ => s.memo
  }

  function NextDisk(s: State, t: nat): map<Key, Licenses>
    requires Enabled(s, t)
  {
    match s.callers[t].pc
    case Resolved(w) => if s.callers[t].key in s.usesDisk && w != [] then s.disk[s.callers[t].key := w] else s.disk
    case _ => s.disk
  }

  /** A flight starts when a caller joins an idle group and ends when its leader finishes. */
  function NextFlights(s: State, t: nat): map<Key, nat>
    requires Enabled(s, t)
  {
    var k := s.callers[t].key;
    match s.callers[t].pc
    case Join => if k in s.flights then s.flights else s.flights[k := t]
    case Finishing(_) => s.flights - {k}
    case _ => s.flights
  }

  function NextOutcome(s: State, t: nat): map<nat, Licenses>
    requires Enabled(s, t)
  {
    match s.callers[t].pc
    case Finishing(w) => s.outcome[t := w]
    case _ => s.outcome
  }

  function NextResolves(s: State, t: nat): multiset<Key>
    requires Enabled(s, t)
  {
    if s.callers[t].pc.Leading? && s.callers[t].key !in s.memo then s.resolves + multiset{s.callers[t].key} else s.resolves
  }

  /** Nothing has run yet; the disk cache may hold anything from earlier sessions. */
  predicate Init(s: State) {
    (forall t :: 0 <= t < |s.callers| ==> s.callers[t].pc == Start)
    && s.memo == map[] && s.flights == map[] && s.outcome == map[] && s.resolves == multiset{}
  }

  /** A schedule names the caller to move next, and what a resolve returns if that is its step. */
  type Schedule = seq<(nat, Licenses)>

  function Run(s: State, schedule: Schedule): State
    decreases |schedule|
  {
    if schedule == [] then s
    else if Enabled(s, schedule[0].0) then Run(Next(s, schedule[0].0, schedule[0].1), schedule[1..])
    else Run(s, schedule[1..])
  }

  // ---- The invariant ----

  predicate InFlight(pc: Pc) { pc.Leading? || pc.Resolving? || pc.Resolved? || pc.Written? || pc.Finishing? }

  predicate Asked(pc: Pc) { pc.Resolving? || pc.Resolved? || pc.Written? }

  predicate LeaderIs(s: State, k: Key, t: nat) {
    t < |s.callers| && s.callers[t].key == k && InFlight(s.callers[t].pc)
  }

  /** What holds of one key's caches. */
  predicate KeyInv(s: State, k: Key) {
    (k in s.flights ==> LeaderIs(s, k, s.flights[k]))
    && (k in s.memo && s.DiskHit(k) ==> s.memo[k] == s.disk[k])
    && (k in s.memo && k in s.usesDisk && s.memo[k] != [] ==> s.DiskHit(k))
    && s.resolves[k] <= 1
    && (s.resolves[k] == 1 ==> k in s.memo || (k in s.flights && Asked(s.callers[s.flights[k]].pc)))
  }

  /** What holds of one caller. */
  predicate CallerInv(s: State, t: nat)
    requires t < |s.callers|
  {
    var k := s.callers[t].key;
    (InFlight(s.callers[t].pc) ==> k in s.flights && s.flights[k] == t)
    && match s.callers[t].pc
       case Start => true
       case AskDisk => true
       case FromDisk(v) => s.DiskHit(k) && s.disk[k] == v
       case Join => s.DiskHit(k) && k !in s.memo ==> k in s.flights && LeaderIs(s, k, s.flights[k]) && s.callers[s.flights[k]].pc.Written?
       case Waiting(leader) =>
         if leader in s.outcome then k in s.memo && s.memo[k] == s.outcome[leader]
         else k in s.flights && s.flights[k] == leader
       case Leading => s.DiskHit(k) ==> k in s.memo
       case Resolving => k !in s.memo && !s.DiskHit(k) && s.resolves[k] == 1
       case Resolved(v) => k !in s.memo && !s.DiskHit(k) && s.resolves[k] == 1
       case Written(v) => s.resolves[k] == 1 && (if k in s.usesDisk && v != [] then k in s.disk && s.disk[k] == v else k !in s.memo && !s.DiskHit(k))
       case Finishing(v) => k in s.memo && s.memo[k] == v
       case Done(v) => k in s.memo && s.memo[k] == v
  }

  ghost predicate Inv(s: State) {
    (forall k :: KeyInv(s, k))
    && (forall t: nat :: t < |s.callers| ==> CallerInv(s, t))
    && (forall t :: t in s.outcome ==> t < |s.callers| && s.callers[t].pc.Done?)
  }

  lemma StepKeepsKey(s: State, t: nat, v: Licenses, q: Key)
    requires Enabled(s, t) && CallerInv(s, t) && KeyInv(s, q)
    ensures KeyInv(Next(s, t, v), q)
  {
    if q != s.callers[t].key {
      OtherKeysUntouched(s, t, v, q);
      NextShape(s, t, v);
      assert s.DiskHit(q) == Next(s, t, v).DiskHit(q);
    }
  }

  lemma StepKeepsMover(s: State, t: nat, v: Licenses)
    requires Enabled(s, t) && CallerInv(s, t) && KeyInv(s, s.callers[t].key)
    requires s.callers[t].key in s.flights ==> s.flights[s.callers[t].key] !in s.outcome
    ensures CallerInv(Next(s, t, v), t)
  {}

  // How many moves a caller is from returning, at most.
  function Rank(pc: Pc): nat {
    match pc
    case Start => 8
    case AskDisk => 7
    case Join => 6
    case Leading => 5
    case Resolving => 4
    case Resolved(_) => 3
    case Written(_) => 2
    case Finishing(_) => 1
    case Waiting(_) => 1
    case FromDisk(_) => 1
    case Done(_) => 0
  }

  /** A step moves one caller forward and nobody else. */
  lemma NextShape(s: State, t: nat, v: Licenses)
    requires Enabled(s, t)
    ensures var s' := Next(s, t, v);
            s'.callers == s.callers[t := Caller(s.callers[t].key, s'.callers[t].pc)]
            && Rank(s'.callers[t].pc) < Rank(s.callers[t].pc)
  {}

  /** Two states that look alike to the callers of key `q`. */
  predicate AlikeFor(s: State, s': State, q: Key) {
    |s.callers| == |s'.callers| && s.usesDisk == s'.usesDisk
    && (q in s.memo <==> q in s'.memo) && (q in s.memo ==> s.memo[q] == s'.memo[q])
    && (q in s.disk <==> q in s'.disk) && (q in s.disk ==> s.disk[q] == s'.disk[q])
    && (q in s.flights <==> q in s'.flights) && (q in s.flights ==> s.flights[q] == s'.flights[q])
    && s.resolves[q] == s'.resolves[q]
  }

  lemma OtherKeysUntouched(s: State, t: nat, v: Licenses, q: Key)
    requires Enabled(s, t) && q != s.callers[t].key
    ensures AlikeFor(s, Next(s, t, v), q)
  {}

  /** Only the moving caller's outcome can appear. */
  lemma OtherOutcomesUntouched(s: State, t: nat, v: Licenses, l: nat)
    requires Enabled(s, t) && l != t
    ensures var o := Next(s, t, v).outcome; (l in s.outcome <==> l in o) && (l in o ==> s.outcome[l] == o[l])
  {}

  lemma StepKeepsOtherKey(s: State, t: nat, v: Licenses, u: nat)
    requires Enabled(s, t) && u < |s.callers| && s.callers[u].key != s.callers[t].key
    requires CallerInv(s, u) && KeyInv(s, s.callers[u].key) && t !in s.outcome
    ensures CallerInv(Next(s, t, v), u)
  {
    var s', q := Next(s, t, v), s.callers[u].key;
    OtherKeysUntouched(s, t, v, q);
    NextShape(s, t, v);
    if s.callers[u].pc.Waiting? && s.callers[u].pc.leader != t {
      OtherOutcomesUntouched(s, t, v, s.callers[u].pc.leader);
    }
    assert q in s.flights ==> s.flights[q] != t && s'.callers[s.flights[q]] == s.callers[s.flights[q]];
    assert s'.callers[u] == s.callers[u] && s.DiskHit(q) == s'.DiskHit(q);
  }

  lemma StepKeepsSameKey(s: State, t: nat, v: Licenses, u: nat)
    requires Enabled(s, t) && u < |s.callers| && u != t && s.callers[u].key == s.callers[t].key
    requires CallerInv(s, t) && CallerInv(s, u) && KeyInv(s, s.callers[t].key) && t !in s.outcome
    ensures CallerInv(Next(s, t, v), u)
  {}

  lemma StepKeepsInv(s: State, t: nat, v: Licenses)
    requires Inv(s) && Enabled(s, t)
    ensures Inv(Next(s, t, v))
  {
    var s' := Next(s, t, v);
    assert CallerInv(s, t) && KeyInv(s, s.callers[t].key);
    forall q ensures KeyInv(s', q) {
      StepKeepsKey(s, t, v, q);
    }
    forall u: nat | u < |s'.callers| ensures CallerInv(s', u) {
      if u == t {
        StepKeepsMover(s, t, v);
      } else {
        assert CallerInv(s, u) && KeyInv(s, s.callers[u].key);
        if s.callers[u].key == s.callers[t].key {
          StepKeepsSameKey(s, t, v, u);
        } else {
          StepKeepsOtherKey(s, t, v, u);
        }
      }
    }
  }

  lemma {:induction false} RunKeepsInv(s: State, schedule: Schedule)
    requires Inv(s)
    ensures Inv(Run(s, schedule))
    decreases |schedule|
  {
    if schedule != [] {
      if Enabled(s, schedule[0].0) {
        StepKeepsInv(s, schedule[0].0, schedule[0].1);
        RunKeepsInv(Next(s, schedule[0].0, schedule[0].1), schedule[1..]);
      } else {
        RunKeepsInv(s, schedule[1..]);
      }
    }
  }

  // ---- Where a key's list comes from ----

  /** A key cached on disk from the start is never resolved; any other key's list comes from one resolve. */
  predicate KeyOrigin(s0: State, s: State, k: Key) {
    if s0.DiskHit(k) then s.DiskHit(k) && s.disk[k] == s0.disk[k] && s.resolves[k] == 0
    else k in s.memo || s.DiskHit(k) ==> s.resolves[k] == 1
  }

  ghost predicate Origin(s0: State, s: State) { forall k :: KeyOrigin(s0, s, k) }

  lemma StepKeepsOrigin(s0: State, s: State, t: nat, v: Licenses, k: Key)
    requires Enabled(s, t) && CallerInv(s, t) && KeyInv(s, k)
    requires KeyOrigin(s0, s, k)
    ensures KeyOrigin(s0, Next(s, t, v), k)
  {
    if k != s.callers[t].key {
      OtherKeysUntouched(s, t, v, k);
      assert s.usesDisk == Next(s, t, v).usesDisk;
    }
  }

  lemma {:induction false} RunKeepsOrigin(s0: State, s: State, schedule: Schedule)
    requires Inv(s) && Origin(s0, s)
    ensures Origin(s0, Run(s, schedule))
    decreases |schedule|
  {
    if schedule != [] {
      var t, v := schedule[0].0, schedule[0].1;
      if Enabled(s, t) {
        StepKeepsInv(s, t, v);
        forall k ensures KeyOrigin(s0, Next(s, t, v), k) {
          assert KeyOrigin(s0, s, k) && KeyInv(s, k) && CallerInv(s, t);
          StepKeepsOrigin(s0, s, t, v, k);
        }
        RunKeepsOrigin(s0, Next(s, t, v), schedule[1..]);
      } else {
        RunKeepsOrigin(s0, s, schedule[1..]);
      }
    }
  }

  /** In every interleaving: at most one resolve per key; everyone who asked for a key returns the same
      list, which is what the memo holds and what the disk holds; and the list was resolved exactly once,
      or not at all when the disk already held it. */
  lemma LookupsAgree(s0: State, schedule: Schedule, t: nat, u: nat)
    requires Init(s0)
    ensures var s := Run(s0, schedule);
            (forall k :: s.resolves[k] <= 1)
            && (t < |s.callers| && s.callers[t].pc.Done? ==>
                  var k, v := s.callers[t].key, s.callers[t].pc.v;
                  k in s.memo && s.memo[k] == v
                  && (s.DiskHit(k) ==> s.disk[k] == v)
                  && (k in s.usesDisk && v != [] ==> s.DiskHit(k))
                  && (k in s0.usesDisk && k in s0.disk && s0.disk[k] != [] ==> v == s0.disk[k])
                  && s.resolves[k] == (if k in s0.usesDisk && k in s0.disk && s0.disk[k] != [] then 0 else 1)
                  && (u < |s.callers| && s.callers[u].pc.Done? && s.callers[u].key == k ==> s.callers[u].pc.v == v))
  {
    RunKeepsInv(s0, schedule);
    assert Origin(s0, s0);
    RunKeepsOrigin(s0, s0, schedule);
    var s := Run(s0, schedule);
    forall k ensures s.resolves[k] <= 1 {
      assert KeyInv(s, k);
    }
    if t < |s.callers| && s.callers[t].pc.Done? {
      assert CallerInv(s, t) && KeyInv(s, s.callers[t].key) && KeyOrigin(s0, s, s.callers[t].key);
      if u < |s.callers| {
        assert CallerInv(s, u);
      }
    }
  }

  /** A lookup that finds its key in the memo returns at once. */
  lemma MemoHitReturns(s: State, t: nat, v: Licenses)
    requires Enabled(s, t) && s.callers[t].pc == Start && s.callers[t].key in s.memo
    ensures var s' := Next(s, t, v);
            s' == s.(callers := s.callers[t := Caller(s.callers[t].key, Done(s.memo[s.callers[t].key]))])
  {}

  /** Only keys that use the disk are ever written to it, and never with an empty list. */
  lemma {:induction false} DiskKeeps(s: State, schedule: Schedule, k: Key)
    ensures var r := Run(s, schedule);
            r.usesDisk == s.usesDisk
            && (k in s.disk ==> k in r.disk)
            && (k in r.disk ==> (k in s.disk && r.disk[k] == s.disk[k]) || (k in s.usesDisk && r.disk[k] != []))
    decreases |schedule|
  {
    if schedule != [] {
      if Enabled(s, schedule[0].0) {
        DiskKeeps(Next(s, schedule[0].0, schedule[0].1), schedule[1..], k);
      } else {
        DiskKeeps(s, schedule[1..], k);
      }
    }
  }

  // ---- What a lookup returns ----

  /** A schedule in which every resolve comes back with what the registry says of the key. */
  predicate Answers(callers: seq<Caller>, schedule: Schedule, registry: Key -> Licenses) {
    forall i :: 0 <= i < |schedule| && schedule[i].0 < |callers| ==> schedule[i].1 == registry(callers[schedule[i].0].key)
  }

  function Right(s0: State, registry: Key -> Licenses, k: Key): Licenses {
    if s0.DiskHit(k) then s0.disk[k] else registry(k)
  }

  /** A list that a caller carries around for its key is the right one. */
  predicate CarriesRight(c: Caller, right: Licenses) {
    match c.pc
    case FromDisk(v) => v == right
    case Resolved(v) => v == right
    case Written(v) => v == right
    case Finishing(v) => v == right
    case Done(v) => v == right
    case _ => true
  }

  ghost predicate AllRight(s0: State, s: State, registry: Key -> Licenses) {
    (forall k :: k in s.memo ==> s.memo[k] == Right(s0, registry, k))
    && (forall k :: s.DiskHit(k) ==> s.disk[k] == Right(s0, registry, k))
    && forall t :: 0 <= t < |s.callers| ==> CarriesRight(s.callers[t], Right(s0, registry, s.callers[t].key))
  }

  lemma MoverStaysRight(s0: State, s: State, t: nat, v: Licenses, registry: Key -> Licenses)
    requires Inv(s) && Origin(s0, s) && AllRight(s0, s, registry) && Enabled(s, t) && v == registry(s.callers[t].key)
    ensures var k := s.callers[t].key; CarriesRight(Next(s, t, v).callers[t], Right(s0, registry, k))
  {
    assert CallerInv(s, t) && KeyInv(s, s.callers[t].key) && KeyOrigin(s0, s, s.callers[t].key);
    assert CarriesRight(s.callers[t], Right(s0, registry, s.callers[t].key));
  }

  lemma StepStaysRight(s0: State, s: State, t: nat, v: Licenses, registry: Key -> Licenses)
    requires Inv(s) && Origin(s0, s) && AllRight(s0, s, registry) && Enabled(s, t) && v == registry(s.callers[t].key)
    ensures AllRight(s0, Next(s, t, v), registry)
  {
    var s' := Next(s, t, v);
    NextShape(s, t, v);
    MoverStaysRight(s0, s, t, v, registry);
    assert CarriesRight(s.callers[t], Right(s0, registry, s.callers[t].key));
    forall k | k in s'.memo ensures s'.memo[k] == Right(s0, registry, k) {
      if k != s.callers[t].key {
        OtherKeysUntouched(s, t, v, k);
      }
    }
    forall k | s'.DiskHit(k) ensures s'.disk[k] == Right(s0, registry, k) {
      if k != s.callers[t].key {
        OtherKeysUntouched(s, t, v, k);
        assert s.DiskHit(k);
      }
    }
  }

  lemma {:induction false} RunStaysRight(s0: State, s: State, schedule: Schedule, registry: Key -> Licenses)
    requires Inv(s) && Origin(s0, s) && AllRight(s0, s, registry) && Answers(s.callers, schedule, registry)
    ensures AllRight(s0, Run(s, schedule), registry)
    decreases |schedule|
  {
    if schedule != [] {
      var t, v := schedule[0].0, schedule[0].1;
      assert forall i :: 0 <= i < |schedule| - 1 ==> schedule[1..][i] == schedule[i + 1];
      if Enabled(s, t) {
        StepKeepsInv(s, t, v);
        forall k ensures KeyOrigin(s0, Next(s, t, v), k) {
          assert KeyOrigin(s0, s, k) && KeyInv(s, k) && CallerInv(s, t);
          StepKeepsOrigin(s0, s, t, v, k);
        }
        StepStaysRight(s0, s, t, v, registry);
        NextShape(s, t, v);
        RunStaysRight(s0, Next(s, t, v), schedule[1..], registry);
      } else {
        RunStaysRight(s0, s, schedule[1..], registry);
      }
    }
  }

  /** In every interleaving a lookup returns what the disk held for its key from the start, or else what the
      registry says of it. */
  lemma LookupsAreRight(s0: State, schedule: Schedule, registry: Key -> Licenses, t: nat)
    requires Init(s0) && Answers(s0.callers, schedule, registry)
    ensures var s := Run(s0, schedule);
            t < |s.callers| && s.callers[t].pc.Done? ==>
              s.callers[t].pc.v == if s0.DiskHit(s.callers[t].key) then s0.disk[s.callers[t].key] else registry(s.callers[t].key)
  {
    assert Inv(s0) && Origin(s0, s0);
    RunStaysRight(s0, s0, schedule, registry);
    var s := Run(s0, schedule);
    assert t < |s.callers| ==> CarriesRight(s.callers[t], Right(s0, registry, s.callers[t].key));
  }

  // ---- Every lookup returns ----

  function TotalRank(callers: seq<Caller>): nat {
    if callers == [] then 0 else Rank(callers[0].pc) + TotalRank(callers[1..])
  }

  lemma {:induction false} TotalRankUpdate(callers: seq<Caller>, t: nat, c: Caller)
    requires t < |callers|
    ensures TotalRank(callers[t := c]) == TotalRank(callers) - Rank(callers[t].pc) + Rank(c.pc)
  {
    if t == 0 {
      assert callers[t := c][1..] == callers[1..];
    } else {
      assert callers[t := c][1..] == callers[1..][t - 1 := c];
      TotalRankUpdate(callers[1..], t - 1, c);
    }
  }

  function StepsTaken(s: State, schedule: Schedule): nat
    decreases |schedule|
  {
    if schedule == [] then 0
    else if Enabled(s, schedule[0].0) then 1 + StepsTaken(Next(s, schedule[0].0, schedule[0].1), schedule[1..])
    else StepsTaken(s, schedule[1..])
  }

  /** What is counted: the entries of the schedule whose caller can move. */
  lemma {:induction false} StepsAreCounted(s: State, schedule: Schedule, t: nat, v: Licenses)
    ensures StepsTaken(s, schedule + [(t, v)]) == StepsTaken(s, schedule) + if Enabled(Run(s, schedule), t) then 1 else 0
    ensures StepsTaken(s, []) == 0
    decreases |schedule|
  {
    var longer := schedule + [(t, v)];
    if schedule == [] {
      assert longer[1..] == [] && longer[0] == (t, v);
    } else {
      assert longer[1..] == schedule[1..] + [(t, v)] && longer[0] == schedule[0];
      if Enabled(s, schedule[0].0) {
        StepsAreCounted(Next(s, schedule[0].0, schedule[0].1), schedule[1..], t, v);
      } else {
        StepsAreCounted(s, schedule[1..], t, v);
      }
    }
  }

  lemma {:induction false} StepsAreBounded(s: State, schedule: Schedule)
    ensures StepsTaken(s, schedule) + TotalRank(Run(s, schedule).callers) <= TotalRank(s.callers)
    decreases |schedule|
  {
    if schedule != [] {
      var t, v := schedule[0].0, schedule[0].1;
      if Enabled(s, t) {
        var s' := Next(s, t, v);
        NextShape(s, t, v);
        TotalRankUpdate(s.callers, t, s'.callers[t]);
        StepsAreBounded(s', schedule[1..]);
      } else {
        StepsAreBounded(s, schedule[1..]);
      }
    }
  }

  lemma {:induction false} InitialRank(callers: seq<Caller>)
    requires forall t :: 0 <= t < |callers| ==> callers[t].pc == Start
    ensures TotalRank(callers) == 8 * |callers|
  {
    if callers != [] {
      InitialRank(callers[1..]);
    }
  }

  /** Someone can always move until everyone has returned, and each caller moves at most eight times: no
      interleaving deadlocks or runs on. */
  lemma LookupsReturn(s0: State, schedule: Schedule)
    requires Init(s0)
    ensures StepsTaken(s0, schedule) <= 8 * |s0.callers|
    ensures var s := Run(s0, schedule);
            (forall t: nat :: !Enabled(s, t)) ==> forall t :: 0 <= t < |s.callers| ==> s.callers[t].pc.Done?
  {
    InitialRank(s0.callers);
    StepsAreBounded(s0, schedule);
    RunKeepsInv(s0, schedule);
    var s := Run(s0, schedule);
    if t: nat :| t < |s.callers| && !s.callers[t].pc.Done? {
      assert CallerInv(s, t) && KeyInv(s, s.callers[t].key);
      if s.callers[t].pc.Waiting? && s.callers[t].pc.leader !in s.outcome {
        assert Enabled(s, s.callers[t].pc.leader);
      } else {
        assert Enabled(s, t);
      }
    }
  }

  // ---- When entries expire or are evicted ----

  datatype Event = Step(t: nat, v: Licenses) | DropMemo(k: Key) | DropDisk(k: Key)

  function Apply(s: State, e: Event): State {
    match e
    case Step(t, v) => if Enabled(s, t) then Next(s, t, v) else s
    case DropMemo(k) => s.(memo := s.memo - {k})
    case DropDisk(k) => s.(disk := s.disk - {k})
  }

  function Replay(s: State, events: seq<Event>): State
    decreases |events|
  {
    if events == [] then s else Replay(Apply(s, events[0]), events[1..])
  }

  /** The flight of a caller's key belongs to a caller in flight, and each caller in flight owns its flight. */
  predicate Owns(s: State, t: nat)
    requires t < |s.callers|
  {
    var k := s.callers[t].key;
    (InFlight(s.callers[t].pc) ==> k in s.flights && s.flights[k] == t)
    && (k in s.flights ==> LeaderIs(s, k, s.flights[k]))
  }

  ghost predicate FlightInv(s: State) { forall t: nat :: t < |s.callers| ==> Owns(s, t) }

  lemma StepKeepsOwns(s: State, t: nat, v: Licenses, u: nat)
    requires Enabled(s, t) && u < |s.callers| && Owns(s, t) && Owns(s, u)
    ensures Owns(Next(s, t, v), u)
  {
    var k := s.callers[u].key;
    NextShape(s, t, v);
    if k != s.callers[t].key {
      OtherKeysUntouched(s, t, v, k);
      assert k in s.flights ==> Next(s, t, v).callers[s.flights[k]] == s.callers[s.flights[k]];
    }
  }

  lemma ApplyKeepsFlights(s: State, e: Event)
    requires FlightInv(s)
    ensures FlightInv(Apply(s, e))
  {
    forall u: nat | u < |Apply(s, e).callers| ensures Owns(Apply(s, e), u) {
      assert Owns(s, u);
      if e.Step? && Enabled(s, e.t) {
        assert Owns(s, e.t);
        StepKeepsOwns(s, e.t, e.v, u);
      }
    }
  }

  /** Even then, no two resolves of one key ever overlap. */
  lemma {:induction false} ResolvesNeverOverlap(s: State, events: seq<Event>, t: nat, u: nat)
    requires FlightInv(s)
    ensures var r := Replay(s, events);
            t < |r.callers| && u < |r.callers| && r.callers[t].key == r.callers[u].key
            && r.callers[t].pc.Resolving? && r.callers[u].pc.Resolving?
            ==> t == u
    decreases |events|
  {
    if events != [] {
      ApplyKeepsFlights(s, events[0]);
      ResolvesNeverOverlap(Apply(s, events[0]), events[1..], t, u);
    } else if t < |s.callers| && u < |s.callers| {
      assert Owns(s, t) && Owns(s, u);
    }
  }

  function Drops(events: seq<Event>, k: Key): nat {
    if events == [] then 0 else (if events[0] == DropMemo(k) then 1 else 0) + Drops(events[1..], k)
  }

  /** The memo holds the key, or the flight under way has asked already. */
  predicate Charged(s: State, k: Key) {
    k in s.memo || (k in s.flights && LeaderIs(s, k, s.flights[k]) && Asked(s.callers[s.flights[k]].pc))
  }

  predicate ResolvedWithin(s: State, k: Key, d: nat) { s.resolves[k] <= d + if Charged(s, k) then 1 else 0 }

  lemma StepKeepsWithin(s: State, t: nat, v: Licenses, k: Key, d: nat)
    requires Enabled(s, t) && Owns(s, t) && ResolvedWithin(s, k, d)
    ensures ResolvedWithin(Next(s, t, v), k, d)
  {
    NextShape(s, t, v);
    if k != s.callers[t].key {
      OtherKeysUntouched(s, t, v, k);
    }
  }

  lemma {:induction false} ReplayKeepsWithin(s: State, events: seq<Event>, k: Key, d: nat)
    requires FlightInv(s) && ResolvedWithin(s, k, d)
    ensures ResolvedWithin(Replay(s, events), k, d + Drops(events, k))
    decreases |events|
  {
    if events != [] {
      var e := events[0];
      ApplyKeepsFlights(s, e);
      if e.Step? && Enabled(s, e.t) {
        assert Owns(s, e.t);
        StepKeepsWithin(s, e.t, e.v, k, d);
      }
      ReplayKeepsWithin(Apply(s, e), events[1..], k, d + if e == DropMemo(k) then 1 else 0);
    }
  }

  /** A key is resolved at most once more often than its memo entry is dropped, over every run with expiry and
      eviction; without drops that is once. */
  lemma ResolvesAreBounded(s0: State, events: seq<Event>, k: Key)
    requires Init(s0)
    ensures Replay(s0, events).resolves[k] <= 1 + Drops(events, k)
  {
    ReplayKeepsWithin(s0, events, k, 0);
  }

  /** And the bound is reached: a caller that passed the disk check before the first resolve was written resolves
      again if the memo entry is dropped before it joins. */
  lemma EvictionAllowsSecondResolve(k: Key, v: Licenses)
    requires v != []
    ensures exists s, events ::
              Init(s) && k in s.usesDisk && Drops(events, k) == 1 && Replay(s, events).resolves[k] == 2
  {
    var s0 := State([Caller(k, Start), Caller(k, Start)], {k}, map[], map[], map[], map[], multiset{});
    var a, b := Step(0, v), Step(1, v);
    var first, second := [b, b] + ([a, a, a, a] + [a, a, a, a]), [DropMemo(k)] + [b, b];
    FirstResolve(k, v, s0);
    SecondResolve(k, v, Replay(s0, first));
    ReplayAppend(s0, first, second);
    DropsAppend(first, second, k);
    NoDrops(first, k);
    DropsAppend([DropMemo(k)], [b, b], k);
    NoDrops([b, b], k);
    assert Init(s0) && Drops(first + second, k) == 1 && Replay(s0, first + second).resolves[k] == 2;
  }

  lemma FirstResolve(k: Key, v: Licenses, s0: State)
    requires v != [] && s0 == State([Caller(k, Start), Caller(k, Start)], {k}, map[], map[], map[], map[], multiset{})
    ensures var a, b := Step(0, v), Step(1, v);
            Replay(s0, [b, b] + ([a, a, a, a] + [a, a, a, a]))
            == State([Caller(k, Done(v)), Caller(k, Join)], {k}, map[k := v], map[k := v], map[], map[0 := v], multiset{k})
  {
    var a, b := Step(0, v), Step(1, v);
    var s2 := s0.(callers := [Caller(k, Start), Caller(k, Join)]);
    var s10 := State([Caller(k, Done(v)), Caller(k, Join)], {k}, map[k := v], map[k := v], map[], map[0 := v], multiset{k});
    ReplayTwo(s0, b);
    assert Apply(Apply(s0, b), b) == s2;
    FirstCaller(k, v, s2, s10);
    ReplayAppend(s0, [b, b], [a, a, a, a] + [a, a, a, a]);
  }

  lemma SecondResolve(k: Key, v: Licenses, s10: State)
    requires s10 == State([Caller(k, Done(v)), Caller(k, Join)], {k}, map[k := v], map[k := v], map[], map[0 := v], multiset{k})
    ensures Replay(s10, [DropMemo(k)] + [Step(1, v), Step(1, v)]).resolves[k] == 2
  {
    var b, s11 := Step(1, v), s10.(memo := map[]);
    assert Replay(s10, [DropMemo(k)]) == Replay(s11, []) == s11;
    ReplayAppend(s10, [DropMemo(k)], [b, b]);
    ReplayTwo(s11, b);
    assert Apply(Apply(s11, b), b).resolves == multiset{k} + multiset{k};
  }

  lemma {:induction false} NoDrops(events: seq<Event>, k: Key)
    requires forall i :: 0 <= i < |events| ==> events[i].Step?
    ensures Drops(events, k) == 0
  {
    if events != [] {
      NoDrops(events[1..], k);
    }
  }

  lemma {:induction false} DropsAppend(a: seq<Event>, b: seq<Event>, k: Key)
    ensures Drops(a + b, k) == Drops(a, k) + Drops(b, k)
  {
    if a == [] {
      assert a + b == b;
    } else {
      assert (a + b)[1..] == a[1..] + b;
      DropsAppend(a[1..], b, k);
    }
  }

  lemma FirstCaller(k: Key, v: Licenses, s2: State, s10: State)
    requires v != []
    requires s2 == State([Caller(k, Start), Caller(k, Join)], {k}, map[], map[], map[], map[], multiset{})
    requires s10 == State([Caller(k, Done(v)), Caller(k, Join)], {k}, map[k := v], map[k := v], map[], map[0 := v], multiset{k})
    ensures var a := Step(0, v); Replay(s2, [a, a, a, a] + [a, a, a, a]) == s10
  {
    var a := Step(0, v);
    var s6 := s2.(callers := [Caller(k, Resolving), Caller(k, Join)], flights := map[k := 0], resolves := multiset{k});
    FirstHalf(k, v, s2, s6);
    SecondHalf(k, v, s6, s10);
    ReplayAppend(s2, [a, a, a, a], [a, a, a, a]);
  }

  lemma FirstHalf(k: Key, v: Licenses, s2: State, s6: State)
    requires s2 == State([Caller(k, Start), Caller(k, Join)], {k}, map[], map[], map[], map[], multiset{})
    requires s6 == s2.(callers := [Caller(k, Resolving), Caller(k, Join)], flights := map[k := 0], resolves := multiset{k})
    ensures var a := Step(0, v); Replay(s2, [a, a, a, a]) == s6
  {
    var a := Step(0, v);
    assert Apply(Apply(s2, a), a) == s2.(callers := [Caller(k, Join), Caller(k, Join)]);
    ReplayFour(s2, a);
  }

  lemma SecondHalf(k: Key, v: Licenses, s6: State, s10: State)
    requires v != []
    requires s6 == State([Caller(k, Resolving), Caller(k, Join)], {k}, map[], map[], map[k := 0], map[], multiset{k})
    requires s10 == State([Caller(k, Done(v)), Caller(k, Join)], {k}, map[k := v], map[k := v], map[], map[0 := v], multiset{k})
    ensures var a := Step(0, v); Replay(s6, [a, a, a, a]) == s10
  {
    var a := Step(0, v);
    var s8 := s6.(callers := [Caller(k, Written(v)), Caller(k, Join)], disk := map[k := v]);
    assert Apply(Apply(s6, a), a) == s8;
    assert Apply(s8, a) == s8.(callers := [Caller(k, Finishing(v)), Caller(k, Join)], memo := map[k := v]);
    ReplayFour(s6, a);
  }

  lemma ReplayTwo(s: State, e: Event)
    ensures Replay(s, [e, e]) == Apply(Apply(s, e), e)
  {
    assert Replay(s, [e, e]) == Replay(Apply(s, e), [e]);
    assert Replay(Apply(s, e), [e]) == Replay(Apply(Apply(s, e), e), []);
  }

  lemma ReplayFour(s: State, e: Event)
    ensures Replay(s, [e, e, e, e]) == Apply(Apply(Apply(Apply(s, e), e), e), e)
  {
    var s1 := Apply(s, e);
    var s2 := Apply(s1, e);
    assert Replay(s, [e, e, e, e]) == Replay(s1, [e, e, e]);
    assert Replay(s1, [e, e, e]) == Replay(s2, [e, e]);
    assert Replay(s2, [e, e]) == Replay(Apply(s2, e), [e]);
    assert Replay(Apply(s2, e), [e]) == Replay(Apply(Apply(s2, e), e), []);
  }

  lemma {:induction false} ReplayAppend(s: State, a: seq<Event>, b: seq<Event>)
    ensures Replay(s, a + b) == Replay(Replay(s, a), b)
    decreases |a|
  {
    if a == [] {
      assert a + b == b;
    } else {
      assert (a + b)[1..] == a[1..] + b;
      ReplayAppend(Apply(s, a[0]), a[1..], b);
    }
  }
}
