// internal/license/license.go: the bounded workers of a license scan; each step is one goroutine's action.
module LicenseWorkers {
  /** The identifiers that each candidate file sends, in the order the files are launched. */
  type Work = seq<seq<string>>

  const LIMIT: nat := 10

  /** Files below `launched` have a goroutine; those in `running` have not ended yet. `sent[i]` counts what
      file `i` has put on the channel, whose capacity is the number of files. */
  datatype State = State(launched: nat, running: set<nat>, sent: seq<nat>, buffer: seq<string>, received: seq<string>)

  datatype Move = Launch | Send(file: nat) | Finish(file: nat) | Receive

  function Start(work: Work): State { State(0, {}, seq(|work|, i => 0), [], []) }

  /** Launching blocks while ten goroutines run, sending while the buffer is full; the reader starts once
      every file is launched. */
  predicate Enabled(work: Work, s: State, m: Move) {
    match m
    case Launch => s.launched < |work| && |s.running| < LIMIT
    case Send(i) => i in s.running && i < |work| == |s.sent| && s.sent[i] < |work[i]| && |s.buffer| < |work|
    case Finish(i) => i in s.running && i < |work| == |s.sent| && s.sent[i] == |work[i]|
    case Receive => s.launched == |work| && s.buffer != []
  }

  function Next(work: Work, s: State, m: Move): State
    requires Enabled(work, s, m)
  {
    match m
    case Launch => s.(launched := s.launched + 1, running := s.running + {s.launched})
    case Send(i) => s.(sent := s.sent[i := s.sent[i] + 1], buffer := s.buffer + [work[i][s.sent[i]]])
    case Finish(i) => s.(running := s.running - {i})
    case Receive => s.(buffer := s.buffer[1..], received := s.received + [s.buffer[0]])
  }

  function Step(work: Work, s: State, m: Move): State { if Enabled(work, s, m) then Next(work, s, m) else s }

  function Run(work: Work, s: State, moves: seq<Move>): State
    decreases |moves|
  {
    if moves == [] then s else Step(work, Run(work, s, moves[..|moves| - 1]), moves[|moves| - 1])
  }

  /** The channel is closed once every goroutine has ended, and the reader stops once it is drained. */
  predicate Returned(work: Work, s: State) { s.launched == |work| && s.running == {} && s.buffer == [] }

  ghost predicate Stuck(work: Work, s: State) {
    !Returned(work, s) && forall m :: !Enabled(work, s, m)
  }

  ghost predicate GetsStuck(work: Work, moves: seq<Move>) { Stuck(work, Run(work, Start(work), moves)) }

  lemma {:induction false} RunAppend(work: Work, s: State, a: seq<Move>, b: seq<Move>)
    ensures Run(work, s, a + b) == Run(work, Run(work, s, a), b)
  {
    if b == [] {
      assert a + b == a;
    } else {
      assert (a + b)[..|a + b| - 1] == a + b[..|b| - 1];
      RunAppend(work, s, a, b[..|b| - 1]);
    }
  }

  // ---- Counting ----

  /** How many identifiers the first `n` files have, and how many of those files have any. */
  function Total(work: Work, n: nat): nat
    requires n <= |work|
  {
    if n == 0 then 0 else Total(work, n - 1) + |work[n - 1]|
  }

  function Positive(work: Work, n: nat): nat
    requires n <= |work|
  {
    if n == 0 then 0 else Positive(work, n - 1) + if work[n - 1] == [] then 0 else 1
  }

  function Sent(sent: seq<nat>, n: nat): nat
    requires n <= |sent|
  {
    if n == 0 then 0 else Sent(sent, n - 1) + sent[n - 1]
  }

  lemma {:induction false} SentOneMore(sent: seq<nat>, i: nat, n: nat)
    requires i < |sent| && n <= |sent|
    ensures Sent(sent[i := sent[i] + 1], n) == Sent(sent, n) + if i < n then 1 else 0
  {
    if n > 0 {
      SentOneMore(sent, i, n - 1);
    }
  }

  lemma {:induction false} NothingSent(sent: seq<nat>, n: nat)
    requires n <= |sent| && forall i :: 0 <= i < n ==> sent[i] == 0
    ensures Sent(sent, n) == 0
  {
    if n > 0 {
      NothingSent(sent, n - 1);
    }
  }

  lemma {:induction false} CountsGrow(work: Work, m: nat, n: nat)
    requires m <= n <= |work|
    ensures Total(work, m) <= Total(work, n) && Positive(work, m) <= Positive(work, n)
  {
    if m < n {
      CountsGrow(work, m, n - 1);
    }
  }

  // ---- What every run keeps ----

  predicate FileInv(work: Work, s: State, i: nat)
    requires i < |work| == |s.sent|
  {
    if i < s.launched then s.sent[i] <= |work[i]| && (i in s.running || s.sent[i] == |work[i]|)
    else s.sent[i] == 0 && i !in s.running
  }

  predicate Inv(work: Work, s: State) {
    s.launched <= |work| == |s.sent|
    && (forall i :: i in s.running ==> i < s.launched)
    && (forall i: nat :: i < |work| ==> FileInv(work, s, i))
    && |s.running| <= LIMIT && |s.buffer| <= |work|
    && |s.buffer| + |s.received| == Sent(s.sent, |work|)
    && (s.launched < |work| ==> s.received == [])
  }

  lemma WithinWork(work: Work, s: State)
    requires Inv(work, s)
    ensures forall i :: 0 <= i < |work| ==> s.sent[i] <= |work[i]|
  {
    forall i: nat | i < |work| ensures s.sent[i] <= |work[i]| {
      assert FileInv(work, s, i);
    }
  }

  lemma StartKeepsInv(work: Work)
    ensures Inv(work, Start(work))
  {
    NothingSent(Start(work).sent, |work|);
  }

  lemma StepKeepsInv(work: Work, s: State, m: Move)
    requires Inv(work, s)
    ensures Inv(work, Step(work, s, m))
  {
    if Enabled(work, s, m) {
      var r := Next(work, s, m);
      forall i: nat | i < |work| ensures FileInv(work, r, i) {
        assert FileInv(work, s, i);
      }
      if m.Send? {
        SentOneMore(s.sent, m.file, |work|);
      }
    }
  }

  lemma {:induction false} RunKeepsInv(work: Work, moves: seq<Move>)
    ensures Inv(work, Run(work, Start(work), moves))
  {
    if moves == [] {
      StartKeepsInv(work);
    } else {
      RunKeepsInv(work, moves[..|moves| - 1]);
      StepKeepsInv(work, Run(work, Start(work), moves[..|moves| - 1]), moves[|moves| - 1]);
    }
  }

  // ---- When a scan can hang ----

  /** Ten files but the last have an identifier, and the files but the last have at least ten identifiers
      more than there are files. */
  predicate CanHang(work: Work) {
    work != [] && Positive(work, |work| - 1) >= LIMIT && Total(work, |work| - 1) >= |work| + LIMIT
  }

  function Below(files: set<nat>, n: nat): set<nat> { set i | i in files && i < n }

  /** Every running file still has something to send: the counts of what was sent leave room for that. */
  lemma {:induction false} RunningHoldBack(work: Work, sent: seq<nat>, running: set<nat>, n: nat)
    requires n <= |work| == |sent| && forall i :: 0 <= i < |work| ==> sent[i] <= |work[i]|
    requires forall i :: i in running ==> i < |work| && sent[i] < |work[i]|
    ensures Sent(sent, n) + |Below(running, n)| <= Total(work, n)
    ensures |Below(running, n)| <= Positive(work, n)
  {
    if n == 0 {
      assert Below(running, 0) == {};
    } else {
      RunningHoldBack(work, sent, running, n - 1);
      var k := n - 1;
      assert Below(running, n) == if k in running then Below(running, k) + {k} else Below(running, k);
    }
  }

  /** A stuck state has ten blocked senders, a full buffer and a file not launched yet. */
  lemma StuckMeans(work: Work, s: State)
    requires work != [] && Inv(work, s) && Stuck(work, s)
    ensures s.launched < |work| && |s.running| == LIMIT && |s.buffer| == |work|
    ensures forall i :: i in s.running ==> s.sent[i] < |work[i]|
  {
    assert !Enabled(work, s, Launch) && !Enabled(work, s, Receive);
    forall i | i in s.running ensures s.sent[i] < |work[i]| && |s.buffer| == |work| {
      assert FileInv(work, s, i) && !Enabled(work, s, Finish(i)) && !Enabled(work, s, Send(i));
    }
    if s.running != {} {
      var i :| i in s.running;
    }
  }

  lemma {:induction false} NothingSentBehind(sent: seq<nat>, m: nat, n: nat)
    requires m <= n <= |sent| && forall i :: m <= i < n ==> sent[i] == 0
    ensures Sent(sent, n) == Sent(sent, m)
  {
    if m < n {
      NothingSentBehind(sent, m, n - 1);
    }
  }

  lemma StuckCanHang(work: Work, moves: seq<Move>)
    requires work != [] && GetsStuck(work, moves)
    ensures CanHang(work)
  {
    var s := Run(work, Start(work), moves);
    RunKeepsInv(work, moves);
    StuckMeans(work, s);
    WithinWork(work, s);
    forall i: nat | s.launched <= i < |work| ensures s.sent[i] == 0 {
      assert FileInv(work, s, i);
    }
    RunningHoldBack(work, s.sent, s.running, s.launched);
    assert Below(s.running, s.launched) == s.running;
    NothingSentBehind(s.sent, s.launched, |work|);
    CountsGrow(work, s.launched, |work| - 1);
  }

  // ---- A schedule that hangs ----

  function Min(a: nat, b: nat): nat { if a < b then a else b }

  /** The launcher waits in front of file `j`: at most nine files run, each with something left to send. Either
      each holds back one identifier, or the buffer is full already. */
  predicate Blocked(work: Work, s: State, j: nat) {
    j < |work| == |s.sent| && s.launched == j && s.received == []
    && |s.running| == Min(LIMIT - 1, Positive(work, j)) && |s.buffer| <= |work|
    && (forall i :: i in s.running ==> i < j && s.sent[i] < |work[i]|)
    && (forall i :: j <= i < |work| ==> s.sent[i] == 0)
    && (|s.buffer| + |s.running| == Total(work, j) || (|s.buffer| == |work| && Positive(work, j) < LIMIT))
  }

  /** A running file sends `k` identifiers. */
  lemma {:induction false} SendMany(work: Work, s: State, i: nat, k: nat) returns (moves: seq<Move>)
    requires i in s.running && i < |work| == |s.sent| && s.sent[i] + k <= |work[i]| && |s.buffer| + k <= |work|
    ensures var r := Run(work, s, moves);
            r == s.(sent := s.sent[i := s.sent[i] + k], buffer := r.buffer) && |r.buffer| == |s.buffer| + k
  {
    if k == 0 {
      moves := [];
    } else {
      var before := SendMany(work, s, i, k - 1);
      moves := before + [Send(i)];
      assert moves[..|moves| - 1] == before;
    }
  }

  lemma RunOne(work: Work, s: State, m: Move)
    ensures Run(work, s, [m]) == Step(work, s, m)
  {
    assert [m][..0] == [];
    assert Run(work, s, [m][..0]) == s;
  }

  /** Launches file `j` and lets it send all but its last identifier, as far as the buffer takes them. */
  lemma LaunchAndSend(work: Work, s: State, j: nat) returns (moves: seq<Move>)
    requires Blocked(work, s, j) && work[j] != []
    ensures var r := Run(work, s, moves);
            r.launched == j + 1 && r.running == s.running + {j} && r.received == [] && |r.sent| == |work|
            && r.sent[j] < |work[j]| && r.sent == s.sent[j := r.sent[j]]
            && |r.buffer| == |s.buffer| + r.sent[j] <= |work|
            && (r.sent[j] + 1 == |work[j]| || |r.buffer| == |work|)
  {
    var launched := Next(work, s, Launch);
    var k := Min(|work[j]| - 1, |work| - |s.buffer|);
    var sends := SendMany(work, launched, j, k);
    RunOne(work, s, Launch);
    moves := [Launch] + sends;
    RunAppend(work, s, [Launch], sends);
  }

  lemma SkipEmpty(work: Work, s: State, j: nat) returns (moves: seq<Move>)
    requires Blocked(work, s, j) && j + 1 < |work| && work[j] == []
    ensures Blocked(work, Run(work, s, moves), j + 1)
  {
    var launched := Next(work, s, Launch);
    moves := [Launch] + [Finish(j)];
    RunAppend(work, s, [Launch], [Finish(j)]);
    RunOne(work, s, Launch);
    RunOne(work, launched, Finish(j));
    assert launched.running - {j} == s.running;
  }

  /** From in front of file `j` a scan that can hang either hangs there or gets in front of the next file. */
  lemma HangOrAdvance(work: Work, s: State, j: nat) returns (moves: seq<Move>)
    requires Blocked(work, s, j) && j + 1 < |work|
    ensures Stuck(work, Run(work, s, moves)) || Blocked(work, Run(work, s, moves), j + 1)
  {
    if work[j] == [] {
      moves := SkipEmpty(work, s, j);
    } else {
      moves := LaunchAndSend(work, s, j);
      var r := Run(work, s, moves);
      assert j !in s.running;
      if |r.running| == LIMIT {
        if |r.buffer| == |work| {
          HangsHere(work, r);
        } else {
          var done := EndLast(work, s, r, j);
          RunAppend(work, s, moves, done);
          moves := moves + done;
        }
      } else {
        OneMoreWaits(work, s, r, j);
      }
    }
  }

  lemma OneMoreWaits(work: Work, s: State, r: State, j: nat)
    requires Blocked(work, s, j) && j + 1 < |work| && work[j] != [] && j !in s.running && |r.running| < LIMIT
    requires r.launched == j + 1 && r.running == s.running + {j} && r.received == [] && |r.sent| == |work|
    requires r.sent[j] < |work[j]| && r.sent == s.sent[j := r.sent[j]]
    requires |r.buffer| == |s.buffer| + r.sent[j] <= |work|
    requires r.sent[j] + 1 == |work[j]| || |r.buffer| == |work|
    ensures Blocked(work, r, j + 1)
  {}

  lemma HangsHere(work: Work, s: State)
    requires s.launched < |work| == |s.sent| && |s.running| == LIMIT && |s.buffer| == |work|
    requires forall i :: i in s.running ==> i < |work| && s.sent[i] < |work[i]|
    ensures Stuck(work, s)
  {
    forall m ensures !Enabled(work, s, m) {
      match m
      case Launch =>
      case Send(i) =>
      case Finish(i) =>
      case Receive =>
    }
  }

  /** With room left in the buffer, the file just launched sends its last identifier and ends. */
  lemma EndLast(work: Work, s: State, r: State, j: nat) returns (moves: seq<Move>)
    requires Blocked(work, s, j) && j + 1 < |work| && work[j] != [] && j !in s.running
    requires r.launched == j + 1 && r.running == s.running + {j} && r.received == []
    requires r.sent == s.sent[j := |work[j]| - 1] && |r.running| == LIMIT
    requires |r.buffer| == |s.buffer| + |work[j]| - 1 < |work|
    ensures Blocked(work, Run(work, r, moves), j + 1)
  {
    var sends := SendMany(work, r, j, 1);
    var last := Run(work, r, sends);
    moves := sends + [Finish(j)];
    RunAppend(work, r, sends, [Finish(j)]);
    RunOne(work, last, Finish(j));
    assert r.running - {j} == s.running;
  }

  lemma {:induction false} HangFrom(work: Work, s: State, j: nat) returns (moves: seq<Move>)
    requires CanHang(work) && Blocked(work, s, j)
    ensures Stuck(work, Run(work, s, moves))
    decreases |work| - j
  {
    if j == |work| - 1 {
      assert false;
    } else {
      moves := HangOrAdvance(work, s, j);
      var r := Run(work, s, moves);
      if Blocked(work, r, j + 1) {
        var more := HangFrom(work, r, j + 1);
        RunAppend(work, s, moves, more);
        moves := moves + more;
      }
    }
  }

  /** Some schedule gets stuck exactly when ten files but the last have an identifier and the files but the
      last have at least ten more identifiers than there are files. */
  lemma HangsExactly(work: Work)
    requires work != []
    ensures (exists moves :: GetsStuck(work, moves)) <==> CanHang(work)
  {
    if CanHang(work) {
      var moves := HangFrom(work, Start(work), 0);
      assert GetsStuck(work, moves);
    }
    if moves :| GetsStuck(work, moves) {
      StuckCanHang(work, moves);
    }
  }

  /** A scan that cannot hang returns under every schedule that runs until nothing can move; this covers all
      scans of at most ten files, and all with no more identifiers than files. */
  lemma OtherScansReturn(work: Work, moves: seq<Move>)
    requires work != [] && forall m :: !Enabled(work, Run(work, Start(work), moves), m)
    requires !CanHang(work) || |work| <= LIMIT || Total(work, |work|) <= |work|
    ensures Returned(work, Run(work, Start(work), moves))
  {
    PositiveIsBounded(work, |work| - 1);
    CountsGrow(work, |work| - 1, |work|);
    if !Returned(work, Run(work, Start(work), moves)) {
      StuckCanHang(work, moves);
    }
  }

  lemma {:induction false} PositiveIsBounded(work: Work, n: nat)
    requires n <= |work|
    ensures Positive(work, n) <= n
  {
    if n > 0 {
      PositiveIsBounded(work, n - 1);
    }
  }

  lemma {:induction false} EvenWork(file: seq<string>, n: nat, m: nat)
    requires m <= n
    ensures var work := seq(n, i => file);
            Total(work, m) == m * |file| && Positive(work, m) == if file == [] then 0 else m
  {
    if m > 0 {
      EvenWork(file, n, m - 1);
    }
  }

  // ---- Every schedule ends ----

  function Progress(work: Work, s: State): nat
    requires Inv(work, s)
  {
    BelowIsBounded(s.running, s.launched);
    2 * s.launched - |s.running| + Sent(s.sent, |work|) + |s.received|
  }

  lemma {:induction false} BelowIsBounded(files: set<nat>, n: nat)
    requires forall i :: i in files ==> i < n
    ensures |files| <= n
  {
    if n > 0 {
      BelowIsBounded(files - {n - 1}, n - 1);
    } else {
      assert files == {};
    }
  }

  lemma {:induction false} SentIsBounded(work: Work, sent: seq<nat>, n: nat)
    requires n <= |work| == |sent| && forall i :: 0 <= i < |work| ==> sent[i] <= |work[i]|
    ensures Sent(sent, n) <= Total(work, n)
  {
    if n > 0 {
      SentIsBounded(work, sent, n - 1);
    }
  }

  /** Each step makes progress, and progress is bounded: a scan takes at most two steps for every file and two
      for every identifier before it returns or is stuck. */
  lemma StepsAreBounded(work: Work, s: State, m: Move)
    requires Inv(work, s) && Enabled(work, s, m)
    ensures Inv(work, Next(work, s, m)) && Progress(work, Next(work, s, m)) == Progress(work, s) + 1
    ensures Progress(work, s) < 2 * |work| + 2 * Total(work, |work|)
  {
    StepKeepsInv(work, s, m);
    var r := Next(work, s, m);
    if m.Send? {
      SentOneMore(s.sent, m.file, |work|);
    }
    assert Progress(work, r) == Progress(work, s) + 1;
    WithinWork(work, r);
    SentIsBounded(work, r.sent, |work|);
  }

  // ---- When no schedule returns ----

  /** How many identifiers the first `n` files have, those in `held` left out. */
  function TotalExcept(work: Work, held: set<nat>, n: nat): nat
    requires n <= |work|
  {
    if n == 0 then 0 else TotalExcept(work, held, n - 1) + if n - 1 in held then 0 else |work[n - 1]|
  }

  /** While nine files hold their identifiers back, the buffer takes those of all others but the last. */
  predicate Fits(work: Work, held: set<nat>) {
    work != [] && |held| < LIMIT && (forall i :: i in held ==> i < |work| - 1)
    && TotalExcept(work, held, |work| - 1) <= |work|
  }

  lemma {:induction false} EndedHaveSent(work: Work, s: State, n: nat)
    requires Inv(work, s) && n <= s.launched
    ensures TotalExcept(work, s.running, n) <= Sent(s.sent, n)
  {
    if n > 0 {
      EndedHaveSent(work, s, n - 1);
      assert FileInv(work, s, n - 1);
    }
  }

  /** In front of the last launch at most nine files run, and all others have put everything into the buffer. */
  lemma {:induction false} LastLaunch(work: Work, moves: seq<Move>) returns (held: set<nat>)
    requires work != [] && Run(work, Start(work), moves).launched == |work|
    ensures Fits(work, held)
    decreases |moves|
  {
    var before := moves[..|moves| - 1];
    var s := Run(work, Start(work), before);
    if s.launched == |work| {
      held := LastLaunch(work, before);
    } else {
      RunKeepsInv(work, before);
      held := s.running;
      EndedHaveSent(work, s, |work| - 1);
    }
  }

  /** The files in front of `j` have been launched and have ended, except those held back. */
  predicate Paced(work: Work, held: set<nat>, s: State, j: nat) {
    j < |work| == |s.sent| && s.launched == j && s.running == Below(held, j) && s.received == []
    && |s.buffer| == TotalExcept(work, held, j) && forall i :: j <= i < |work| ==> s.sent[i] == 0
  }

  lemma {:induction false} ExceptGrows(work: Work, held: set<nat>, m: nat, n: nat)
    requires m <= n <= |work|
    ensures TotalExcept(work, held, m) <= TotalExcept(work, held, n)
  {
    if m < n {
      ExceptGrows(work, held, m, n - 1);
    }
  }

  lemma BelowHeld(held: set<nat>, j: nat)
    ensures |Below(held, j)| <= |held| && Below(held, j + 1) == if j in held then Below(held, j) + {j} else Below(held, j)
  {
    assert Below(held, j) <= held;
    Subset(Below(held, j), held);
  }

  lemma {:induction false} Subset(a: set<nat>, b: set<nat>)
    requires a <= b
    ensures |a| <= |b|
  {
    if a != {} {
      var x :| x in a;
      Subset(a - {x}, b - {x});
    }
  }

  /** Launches file `j` and, unless it is held back, lets it send everything and end. */
  lemma PaceOne(work: Work, held: set<nat>, s: State, j: nat) returns (moves: seq<Move>)
    requires Fits(work, held) && Paced(work, held, s, j) && j + 1 < |work|
    ensures Paced(work, held, Run(work, s, moves), j + 1)
  {
    BelowHeld(held, j);
    ExceptGrows(work, held, j + 1, |work| - 1);
    var launched := Next(work, s, Launch);
    RunOne(work, s, Launch);
    moves := [Launch];
    if j !in held {
      var sends := SendMany(work, launched, j, |work[j]|);
      RunAppend(work, s, [Launch], sends);
      RunAppend(work, s, [Launch] + sends, [Finish(j)]);
      var sent := Run(work, s, [Launch] + sends);
      RunOne(work, sent, Finish(j));
      moves := [Launch] + sends + [Finish(j)];
      assert sent.running - {j} == s.running;
    }
  }

  lemma {:induction false} PaceFrom(work: Work, held: set<nat>, s: State, j: nat) returns (moves: seq<Move>)
    requires Fits(work, held) && Paced(work, held, s, j)
    ensures Run(work, s, moves).launched == |work|
    decreases |work| - j
  {
    if j == |work| - 1 {
      BelowHeld(held, j);
      moves := [Launch];
      RunOne(work, s, Launch);
    } else {
      var one := PaceOne(work, held, s, j);
      var more := PaceFrom(work, held, Run(work, s, one), j + 1);
      RunAppend(work, s, one, more);
      moves := one + more;
    }
  }

  /** Once every file is launched the scan can be brought to its end. */
  lemma {:induction false} FinishUp(work: Work, s: State) returns (moves: seq<Move>)
    requires work != [] && Inv(work, s) && s.launched == |work|
    ensures Returned(work, Run(work, s, moves))
    decreases 2 * |work| + 2 * Total(work, |work|) - Progress(work, s)
  {
    if Returned(work, s) {
      moves := [];
    } else {
      if Stuck(work, s) {
        StuckMeans(work, s);
        assert false;
      }
      var m :| Enabled(work, s, m);
      StepsAreBounded(work, s, m);
      RunOne(work, s, m);
      var more := FinishUp(work, Next(work, s, m));
      RunAppend(work, s, [m], more);
      moves := [m] + more;
    }
  }

  /** Some schedule returns exactly when at most nine files but the last can be left out so that those that
      remain, the last not counted, have no more identifiers than there are files. */
  lemma ReturnsExactly(work: Work)
    requires work != []
    ensures (exists moves :: Returned(work, Run(work, Start(work), moves))) <==> exists held :: Fits(work, held)
  {
    if moves :| Returned(work, Run(work, Start(work), moves)) {
      var held := LastLaunch(work, moves);
    }
    if held :| Fits(work, held) {
      assert Below(held, 0) == {};
      var pace := PaceFrom(work, held, Start(work), 0);
      RunKeepsInv(work, pace);
      var more := FinishUp(work, Run(work, Start(work), pace));
      RunAppend(work, Start(work), pace, more);
      assert Returned(work, Run(work, Start(work), pace + more));
    }
  }

  lemma {:induction false} EvenExcept(work: Work, c: nat, held: set<nat>, m: nat)
    requires m <= |work| && forall i :: 0 <= i < |work| ==> |work[i]| == c
    ensures |Below(held, m)| <= m && TotalExcept(work, held, m) == c * (m - |Below(held, m)|)
  {
    if m == 0 {
      assert Below(held, 0) == {};
    } else {
      EvenExcept(work, c, held, m - 1);
      BelowHeld(held, m - 1);
      var free := m - 1 - |Below(held, m - 1)|;
      assert c * (free + 1) == c * free + c;
    }
  }

  /** Sixteen license files with three identifiers each: no schedule returns, and some get stuck. */
  lemma SixteenFilesHang(a: string, b: string, c: string)
    ensures var work := seq(16, i => [a, b, c]);
            (exists moves :: GetsStuck(work, moves)) && !exists moves :: Returned(work, Run(work, Start(work), moves))
  {
    var file := [a, b, c];
    var work := seq(16, i => file);
    EvenWork(file, 16, 15);
    HangsExactly(work);
    ReturnsExactly(work);
    forall held ensures !Fits(work, held) {
      EvenExcept(work, 3, held, 15);
      BelowHeld(held, 15);
    }
  }

  // ---- What a scan that returns has received ----

  predicate Within(work: Work, sent: seq<nat>) {
    |work| == |sent| && forall i :: 0 <= i < |work| ==> sent[i] <= |work[i]|
  }

  function Items(work: Work, sent: seq<nat>, n: nat): multiset<string>
    requires n <= |work| && Within(work, sent)
  {
    if n == 0 then multiset{} else Items(work, sent, n - 1) + multiset(work[n - 1][..sent[n - 1]])
  }

  lemma {:induction false} ItemsOneMore(work: Work, sent: seq<nat>, i: nat, n: nat)
    requires n <= |work| && Within(work, sent) && i < |work| && sent[i] < |work[i]|
    ensures Items(work, sent[i := sent[i] + 1], n) == Items(work, sent, n) + if i < n then multiset{work[i][sent[i]]} else multiset{}
  {
    if n > 0 {
      ItemsOneMore(work, sent, i, n - 1);
      TakeOneMore(work[i], sent[i]);
    }
  }

  lemma TakeOneMore(file: seq<string>, k: nat)
    requires k < |file|
    ensures multiset(file[..k + 1]) == multiset(file[..k]) + multiset{file[k]}
  {
    assert file[..k + 1] == file[..k] + [file[k]];
  }

  lemma {:induction false} NoItems(work: Work, sent: seq<nat>, n: nat)
    requires n <= |work| == |sent| && forall i :: 0 <= i < |work| ==> sent[i] == 0
    ensures Items(work, sent, n) == multiset{}
  {
    if n > 0 {
      NoItems(work, sent, n - 1);
    }
  }

  ghost predicate HasItems(work: Work, s: State) {
    Within(work, s.sent) && multiset(s.buffer) + multiset(s.received) == Items(work, s.sent, |work|)
  }

  lemma StepKeepsItems(work: Work, s: State, m: Move)
    requires HasItems(work, s) && Enabled(work, s, m)
    ensures HasItems(work, Next(work, s, m))
  {
    if m.Send? {
      ItemsOneMore(work, s.sent, m.file, |work|);
    } else if m.Receive? {
      assert s.buffer == [s.buffer[0]] + s.buffer[1..];
    }
  }

  lemma {:induction false} RunKeepsItems(work: Work, moves: seq<Move>)
    ensures HasItems(work, Run(work, Start(work), moves))
  {
    if moves == [] {
      NoItems(work, Start(work).sent, |work|);
    } else {
      var before, m := Run(work, Start(work), moves[..|moves| - 1]), moves[|moves| - 1];
      RunKeepsItems(work, moves[..|moves| - 1]);
      if Enabled(work, before, m) {
        StepKeepsItems(work, before, m);
      }
    }
  }

  function AllItems(work: Work, n: nat): multiset<string>
    requires n <= |work|
  {
    if n == 0 then multiset{} else AllItems(work, n - 1) + multiset(work[n - 1])
  }

  lemma {:induction false} EverythingSent(work: Work, sent: seq<nat>, n: nat)
    requires n <= |work| == |sent| && forall i :: 0 <= i < |work| ==> sent[i] == |work[i]|
    ensures Items(work, sent, n) == AllItems(work, n)
  {
    if n > 0 {
      EverythingSent(work, sent, n - 1);
      assert work[n - 1][..sent[n - 1]] == work[n - 1];
    }
  }

  /** Whatever the schedule, a scan that returns has received every identifier of every file as often as it
      occurs. */
  lemma ReturnedHasAll(work: Work, moves: seq<Move>)
    requires Returned(work, Run(work, Start(work), moves))
    ensures multiset(Run(work, Start(work), moves).received) == AllItems(work, |work|)
  {
    var s := Run(work, Start(work), moves);
    RunKeepsInv(work, moves);
    RunKeepsItems(work, moves);
    forall i: nat | i < |work| ensures s.sent[i] == |work[i]| {
      assert FileInv(work, s, i);
    }
    EverythingSent(work, s.sent, |work|);
  }

  lemma {:induction false} ItemsAreFrom(work: Work, n: nat, id: string)
    requires n <= |work|
    ensures id in AllItems(work, n) <==> exists i :: 0 <= i < n && id in work[i]
  {
    if n > 0 {
      ItemsAreFrom(work, n - 1, id);
    }
  }
}
