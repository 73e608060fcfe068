// internal/ai/session.go: a provider's event stream, filtered by guardrails, approval policy and hooks.
module Session {
  import opened Options
  import opened Guardrails

  datatype Mode = ApprovalRequired | ApprovalNotRequired | ApprovalDeny | OtherMode

  datatype Event =
    | Text(text: string)
    | Command(command: string)
    | FileOp(path: string, action: string)
    | ToolCall(call: string)
    | ErrorEvent(message: string)
    | Done(sessionId: string, finish: string)
    | OtherEvent

  /** One item of a stream: an event, or an error in its place. */
  datatype Item = Failure(error: string) | Success(event: Event)

  /** Why a stream replaced an event. */
  datatype Reason = OperationDenied | ApprovalMissing | Callback

  datatype Op = RunCommand(command: string, highRisk: bool) | WriteFile(path: string, action: string, highRisk: bool)

  /** The approver and the hooks may answer differently every time; `turn` is the position in the stream. */
  datatype Policy = Policy(commands: Mode, fileWrites: Mode, highRiskAlways: bool, approver: Option<(nat, Op) -> bool>)

  datatype Hooks = Hooks(
    onCommand: Option<(nat, string) -> bool>,
    onFileWrite: Option<(nat, string) -> bool>,
    onToolCall: Option<(nat, string) -> bool>)

  /** `risky...` are the built-in high-risk patterns, looked at besides the guardrails. */
  datatype Config = Config(
    os: Platform, rules: Rules, policy: Policy, hooks: Hooks, workDir: string,
    riskyCommand: string -> bool, riskyPath: string -> bool, describe: Reason -> string)

  // ---- Specification: what an operation has to pass ----

  /** The approval policy lets an operation of the given risk through. */
  predicate Approved(mode: Mode, policy: Policy, turn: nat, op: Op, highRisk: bool) {
    mode != ApprovalDeny
    && (mode == ApprovalRequired || (mode == ApprovalNotRequired && highRisk && policy.highRiskAlways) ==>
          policy.approver.Some? && policy.approver.value(turn, op))
  }

  predicate CommandRisk(c: Config, cmd: string) {
    EvalCommand(c.os, c.rules.commands, c.rules.custom.command, cmd).highRisk || c.riskyCommand(cmd)
  }

  predicate CommandCleared(c: Config, turn: nat, cmd: string) {
    EvalCommand(c.os, c.rules.commands, c.rules.custom.command, cmd).allowed
    && Approved(c.policy.commands, c.policy, turn, RunCommand(cmd, CommandRisk(c, cmd)), CommandRisk(c, cmd))
    && (c.hooks.onCommand.Some? ==> c.hooks.onCommand.value(turn, cmd))
  }

  ghost predicate FileRisk(c: Config, path: string, action: string) {
    EvalFile(c.os, c.rules.files, c.rules.custom.file, path, action, c.workDir).highRisk || c.riskyPath(path)
  }

  ghost predicate FileCleared(c: Config, turn: nat, path: string, action: string) {
    EvalFile(c.os, c.rules.files, c.rules.custom.file, path, action, c.workDir).allowed
    && Approved(c.policy.fileWrites, c.policy, turn, WriteFile(path, action, FileRisk(c, path, action)), FileRisk(c, path, action))
    && (c.hooks.onFileWrite.Some? ==> c.hooks.onFileWrite.value(turn, path))
  }

  predicate Writes(action: string) { action == "modify" || action == "create" }

  ghost predicate Cleared(c: Config, turn: nat, e: Event) {
    match e
    case Command(cmd) => CommandCleared(c, turn, cmd)
    case FileOp(path, action) => Writes(action) ==> FileCleared(c, turn, path, action)
    case ToolCall(call) => c.hooks.onToolCall.Some? ==> c.hooks.onToolCall.value(turn, call)
    case _ => true
  }

  // ---- Specification: who is asked ----

  /** A call out of the session, to the approver or to one of the hooks. */
  datatype Call = AskApprover(op: Op) | CommandHook(command: string) | FileHook(path: string) | ToolHook(call: string)

  predicate NeedsApproval(mode: Mode, policy: Policy, highRisk: bool) {
    mode == ApprovalRequired || (mode == ApprovalNotRequired && highRisk && policy.highRiskAlways)
  }

  function ApproverCall(mode: Mode, policy: Policy, op: Op, highRisk: bool): seq<Call> {
    if NeedsApproval(mode, policy, highRisk) && policy.approver.Some? then [AskApprover(op)] else []
  }

  /** The guardrails and the policy, without the hook, let the event through. */
  ghost predicate PassesChecks(c: Config, turn: nat, e: Event) {
    Cleared(c.(hooks := Hooks(Option.None, Option.None, Option.None)), turn, e)
  }

  function CommandApproverCalls(c: Config, cmd: string): seq<Call> {
    if !EvalCommand(c.os, c.rules.commands, c.rules.custom.command, cmd).allowed then []
    else ApproverCall(c.policy.commands, c.policy, RunCommand(cmd, CommandRisk(c, cmd)), CommandRisk(c, cmd))
  }

  ghost function WriteApproverCalls(c: Config, path: string, action: string): seq<Call> {
    if !EvalFile(c.os, c.rules.files, c.rules.custom.file, path, action, c.workDir).allowed then []
    else ApproverCall(c.policy.fileWrites, c.policy, WriteFile(path, action, FileRisk(c, path, action)), FileRisk(c, path, action))
  }

  /** The approver's call, if there is one: only for an operation that the guardrails allow. */
  ghost function ApproverCalls(c: Config, e: Event): seq<Call> {
    match e
    case Command(cmd) => CommandApproverCalls(c, cmd)
    case FileOp(path, action) => if Writes(action) then WriteApproverCalls(c, path, action) else []
    case _ => []
  }

  /** The hook that is configured for an event. */
  function HookFor(h: Hooks, e: Event): seq<Call> {
    match e
    case Command(cmd) => if h.onCommand.Some? then [CommandHook(cmd)] else []
    case FileOp(path, action) => if Writes(action) && h.onFileWrite.Some? then [FileHook(path)] else []
    case ToolCall(call) => if h.onToolCall.Some? then [ToolHook(call)] else []
    case _ => []
  }

  /** Everyone asked about an event, in order: first the approver, then the hook, and that one only when
      all checks before it passed. */
  ghost function CallsFor(c: Config, turn: nat, e: Event): seq<Call> {
    ApproverCalls(c, e) + if PassesChecks(c, turn, e) then HookFor(c.hooks, e) else []
  }

  predicate IsError(item: Item) { item.Failure? || item.event.ErrorEvent? }

  // ---- The checks ----

  /** None to let the operation pass. `calls` records the calls made out of the session. */
  method CheckApproval(mode: Mode, policy: Policy, turn: nat, op: Op, highRisk: bool)
    returns (err: Option<Reason>, ghost calls: seq<Call>)
    ensures err.None? == Approved(mode, policy, turn, op, highRisk)
    ensures calls == ApproverCall(mode, policy, op, highRisk)
  {
    calls := [];
    var needsApproval := false;
    match mode {
      case ApprovalDeny => return Option.Some(OperationDenied), calls;
      case ApprovalRequired => needsApproval := true;
      case ApprovalNotRequired => needsApproval := highRisk && policy.highRiskAlways;
      case OtherMode =>
    }
    if !needsApproval {
      return Option.None, calls;
    }
    if policy.approver.None? {
      return Option.Some(ApprovalMissing), calls;
    }
    var consents := policy.approver.value(turn, op);
    calls := calls + [AskApprover(op)];
    return if consents then Option.None else Option.Some(Callback), calls;
  }

  method CheckCommandApproval(c: Config, turn: nat, cmd: string) returns (err: Option<Reason>, ghost calls: seq<Call>)
    ensures err.None? == (EvalCommand(c.os, c.rules.commands, c.rules.custom.command, cmd).allowed
                          && Approved(c.policy.commands, c.policy, turn, RunCommand(cmd, CommandRisk(c, cmd)), CommandRisk(c, cmd)))
    ensures calls == CommandApproverCalls(c, cmd)
  {
    var v := EvalCommand(c.os, c.rules.commands, c.rules.custom.command, cmd);
    if !v.allowed {
      return Option.Some(OperationDenied), [];
    }
    var highRisk := v.highRisk || c.riskyCommand(cmd);
    err, calls := CheckApproval(c.policy.commands, c.policy, turn, RunCommand(cmd, highRisk), highRisk);
  }

  method CheckFileWriteApproval(c: Config, turn: nat, path: string, action: string)
    returns (err: Option<Reason>, ghost calls: seq<Call>)
    ensures err.None? == (EvalFile(c.os, c.rules.files, c.rules.custom.file, path, action, c.workDir).allowed
                          && Approved(c.policy.fileWrites, c.policy, turn, WriteFile(path, action, FileRisk(c, path, action)), FileRisk(c, path, action)))
    ensures calls == WriteApproverCalls(c, path, action)
  {
    var v := EvaluateFile(c.os, c.rules.files, c.rules.custom.file, path, action, c.workDir);
    if !v.allowed {
      return Option.Some(OperationDenied), [];
    }
    var highRisk := v.highRisk || c.riskyPath(path);
    err, calls := CheckApproval(c.policy.fileWrites, c.policy, turn, WriteFile(path, action, highRisk), highRisk);
  }

  /** Asks the hook of an event, if there is one. */
  method AskHook<T>(hook: Option<(nat, T) -> bool>, turn: nat, x: T, ghost call: Call, ghost before: seq<Call>)
    returns (err: Option<Reason>, ghost calls: seq<Call>)
    ensures err.None? == (hook.Some? ==> hook.value(turn, x))
    ensures calls == before + if hook.Some? then [call] else []
  {
    if hook.None? {
      return Option.None, before;
    }
    var accepts := hook.value(turn, x);
    calls := before + [call];
    err := if accepts then Option.None else Option.Some(Callback);
  }

  /** Decides what is yielded for one provider item. */
  method Intercept(c: Config, turn: nat, item: Item) returns (out: Item, ghost calls: seq<Call>)
    ensures out == item || (item.Success? && out.Success? && out.event.ErrorEvent?)
    ensures item.Success? && Cleared(c, turn, item.event) ==> out == item
    ensures item.Success? && !Cleared(c, turn, item.event) ==> out.Success? && out.event.ErrorEvent?
    ensures calls == if item.Failure? then [] else CallsFor(c, turn, item.event)
  {
    out, calls := item, [];
    if item.Failure? {
      return;
    }
    var err: Option<Reason> := Option.None;
    match item.event {
      case Command(cmd) =>
        err, calls := CheckCommandApproval(c, turn, cmd);
        if err.None? {
          err, calls := AskHook(c.hooks.onCommand, turn, cmd, CommandHook(cmd), calls);
        }
      case FileOp(path, action) =>
        if Writes(action) {
          err, calls := CheckFileWriteApproval(c, turn, path, action);
          if err.None? {
            err, calls := AskHook(c.hooks.onFileWrite, turn, path, FileHook(path), calls);
          }
        }
      case ToolCall(call) =>
        err, calls := AskHook(c.hooks.onToolCall, turn, call, ToolHook(call), calls);
      case _ =>
    }
    if err.Some? {
      out := Success(ErrorEvent(c.describe(err.value)));
    }
  }

  // ---- The session ----

  datatype Message = User(content: string) | Assistant(content: string)

  function TextOf(items: seq<Item>): string {
    if items == [] then ""
    else TextOf(items[..|items| - 1]) + TextIn(items[|items| - 1])
  }

  function TextIn(item: Item): string { if item.Success? && item.event.Text? then item.event.text else "" }

  /** The last non-empty session id announced, or the one held before. */
  function IdAfter(id: string, items: seq<Item>): string {
    if items == [] then id
    else
      var last := items[|items| - 1];
      if Announces(last) then last.event.sessionId else IdAfter(id, items[..|items| - 1])
  }

  predicate Announces(item: Item) { item.Success? && item.event.Done? && item.event.sessionId != "" }

  lemma NextItem(id: string, items: seq<Item>, i: nat)
    requires i < |items|
    ensures TextOf(items[..i + 1]) == TextOf(items[..i]) + TextIn(items[i])
    ensures IdAfter(id, items[..i + 1]) == if Announces(items[i]) then items[i].event.sessionId else IdAfter(id, items[..i])
  {
    assert items[..i + 1][..i] == items[..i];
  }

  ghost predicate Filtered(c: Config, items: seq<Item>, yielded: seq<Item>) {
    |yielded| == |items|
    && forall i {:trigger yielded[i]} :: 0 <= i < |items| ==>
         if items[i].Failure? || Cleared(c, i, items[i].event) then yielded[i] == items[i]
         else yielded[i].Success? && yielded[i].event.ErrorEvent?
  }

  lemma FilteredAppend(c: Config, items: seq<Item>, yielded: seq<Item>, item: Item, out: Item)
    requires Filtered(c, items, yielded)
    requires if item.Failure? || Cleared(c, |items|, item.event) then out == item else out.Success? && out.event.ErrorEvent?
    ensures Filtered(c, items + [item], yielded + [out])
  {}

  /** Whom the session asked about each item of the stream. */
  ghost predicate Logged(c: Config, items: seq<Item>, log: seq<seq<Call>>) {
    |log| == |items|
    && forall i {:trigger log[i]} :: 0 <= i < |items| ==> log[i] == if items[i].Failure? then [] else CallsFor(c, i, items[i].event)
  }

  lemma LoggedAppend(c: Config, items: seq<Item>, log: seq<seq<Call>>, item: Item, calls: seq<Call>)
    requires Logged(c, items, log) && calls == if item.Failure? then [] else CallsFor(c, |items|, item.event)
    ensures Logged(c, items + [item], log + [calls])
  {}

  /** Handles one more item of the stream. */
  method Yield(c: Config, ghost before: seq<Item>, item: Item, yielded: seq<Item>, ghost log: seq<seq<Call>>)
    returns (yielded': seq<Item>, ghost log': seq<seq<Call>>)
    requires Filtered(c, before, yielded) && Logged(c, before, log)
    ensures Filtered(c, before + [item], yielded') && Logged(c, before + [item], log')
  {
    var out, calls := Intercept(c, |yielded|, item);
    FilteredAppend(c, before, yielded, item, out);
    LoggedAppend(c, before, log, item, calls);
    yielded', log' := yielded + [out], log + [calls];
  }

  // ---- Results ----

  datatype Result = Result(success: bool, output: string, sessionId: string, finish: string, error: Option<string>)

  /** Session id and finish reason of the last completion event. */
  function LastDone(items: seq<Item>): (string, string) {
    if items == [] then ("", "")
    else
      var last := items[|items| - 1];
      if last.Success? && last.event.Done? then (last.event.sessionId, last.event.finish) else LastDone(items[..|items| - 1])
  }

  function LastError(items: seq<Item>): Option<string> {
    if items == [] then Option.None
    else
      var last := items[|items| - 1];
      if last.Failure? then Option.Some(last.error)
      else if last.event.ErrorEvent? then Option.Some(last.event.message)
      else LastError(items[..|items| - 1])
  }

  function WriterError(items: seq<Item>): Option<string> {
    if items == [] then Option.None
    else
      var last, before := items[|items| - 1], WriterError(items[..|items| - 1]);
      if last.Failure? then Option.Some(last.error)
      else if last.event.ErrorEvent? && before.None? then Option.Some(last.event.message)
      else before
  }

  function Summarize(items: seq<Item>, error: Option<string>): Result {
    Result(error.None?, TextOf(items), LastDone(items).0, LastDone(items).1, error)
  }

  /** Collects what the consumer keeps, the last error included. */
  method KeepLast(events: seq<Item>) returns (r: Result)
    ensures r == Summarize(events, LastError(events))
  {
    r := Result(true, "", "", "", Option.None);
    for i := 0 to |events|
      invariant r == Summarize(events[..i], LastError(events[..i]))
    {
      assert events[..i + 1][..i] == events[..i];
      match events[i] {
        case Failure(error) => r := Result(false, r.output, r.sessionId, r.finish, Option.Some(error));
        case Success(event) =>
          match event {
            case Text(text) => r := r.(output := r.output + text);
            case ErrorEvent(message) => r := Result(false, r.output, r.sessionId, r.finish, Option.Some(message));
            case Done(sessionId, finish) => r := r.(sessionId := sessionId, finish := finish);
            case _ =>
          }
      }
    }
    assert events[..|events|] == events;
  }

  /** The same with the first error event, unless a later failure replaces it. */
  method KeepFirst(events: seq<Item>) returns (r: Result)
    ensures r == Summarize(events, WriterError(events))
  {
    r := Result(true, "", "", "", Option.None);
    for i := 0 to |events|
      invariant r == Summarize(events[..i], WriterError(events[..i]))
    {
      assert events[..i + 1][..i] == events[..i];
      match events[i] {
        case Failure(error) => r := Result(false, r.output, r.sessionId, r.finish, Option.Some(error));
        case Success(event) =>
          match event {
            case Text(text) => r := r.(output := r.output + text);
            case ErrorEvent(message) =>
              if r.error.None? {
                r := Result(false, r.output, r.sessionId, r.finish, Option.Some(message));
              }
            case Done(sessionId, finish) => r := r.(sessionId := sessionId, finish := finish);
            case _ =>
          }
      }
    }
    assert events[..|events|] == events;
  }

  class AISession {
    const config: Config
    var history: seq<Message>
    var id: string

    constructor (config: Config, id: string)
      ensures this.config == config && history == [] && this.id == id
    {
      this.config := config;
      this.history := [];
      this.id := id;
    }

    method AddMessage(m: Message)
      modifies this`history
      ensures history == old(history) + [m]
    {
      history := history + [m];
    }

    /** The consumer takes at most `patience` items and stops at the last of them; a consumer that drains
        the stream has more patience than there are items. */
    method Stream(prompt: string, items: seq<Item>, patience: nat) returns (yielded: seq<Item>, ghost log: seq<seq<Call>>)
      requires patience > 0
      modifies this
      ensures var seen := if patience < |items| then items[..patience] else items;
              Filtered(config, seen, yielded) && Logged(config, seen, log)
              && id == IdAfter(old(id), seen)
              && history == old(history) + [User(prompt)]
                            + if patience > |items| && TextOf(items) != "" then [Assistant(TextOf(items))] else []
    {
      AddMessage(User(prompt));
      var responseText := "";
      yielded, log := [], [];
      for i := 0 to |items|
        invariant i < patience && i == |yielded| && Filtered(config, items[..i], yielded) && Logged(config, items[..i], log)
        invariant responseText == TextOf(items[..i]) && id == IdAfter(old(id), items[..i])
        invariant history == old(history) + [User(prompt)]
      {
        var item := items[i];
        assert items[..i + 1] == items[..i] + [item];
        NextItem(old(id), items, i);
        if item.Success? && item.event.Text? {
          responseText := responseText + item.event.text;
        }
        if item.Success? && item.event.Done? && item.event.sessionId != "" {
          id := item.event.sessionId;
        }
        yielded, log := Yield(config, items[..i], item, yielded, log);
        if |yielded| == patience {
          assert patience == |items| ==> items[..i + 1] == items;
          return;
        }
      }
      assert items[..|items|] == items;
      if responseText != "" {
        AddMessage(Assistant(responseText));
      }
    }

    /** Drains the stream and keeps the last error. */
    method Run(prompt: string, items: seq<Item>) returns (r: Result, ghost yielded: seq<Item>)
      modifies this
      ensures Filtered(config, items, yielded) && r == Summarize(yielded, LastError(yielded))
      ensures history == old(history) + [User(prompt)] + if r.output != "" then [Assistant(r.output)] else []
    {
      var events, log := Stream(prompt, items, |items| + 1);
      yielded := events;
      r := KeepLast(events);
      TextSurvives(config, items, yielded);
    }

    /** The same, keeping the first error event unless a later failure replaces it. */
    method StreamToWriter(prompt: string, items: seq<Item>) returns (r: Result, ghost yielded: seq<Item>)
      modifies this
      ensures Filtered(config, items, yielded) && r == Summarize(yielded, WriterError(yielded))
      ensures history == old(history) + [User(prompt)] + if r.output != "" then [Assistant(r.output)] else []
    {
      var events, log := Stream(prompt, items, |items| + 1);
      yielded := events;
      r := KeepFirst(events);
      TextSurvives(config, items, yielded);
    }
  }

  // ---- What the consumers see ----

  /** Filtering never touches text, so the recorded answer is what the consumer read. */
  lemma {:induction false} TextSurvives(c: Config, items: seq<Item>, yielded: seq<Item>)
    requires Filtered(c, items, yielded)
    ensures TextOf(yielded) == TextOf(items)
  {
    if items != [] {
      TextSurvives(c, items[..|items| - 1], yielded[..|yielded| - 1]);
    }
  }

  /** Both consumers succeed exactly when nothing yielded is an error, and differ at most in which error they keep. */
  lemma {:induction false} ConsumersAgree(items: seq<Item>)
    ensures Summarize(items, LastError(items)).success <==> forall i :: 0 <= i < |items| ==> !IsError(items[i])
    ensures Summarize(items, WriterError(items)) == Summarize(items, LastError(items)).(error := WriterError(items))
  {
    if items != [] {
      ConsumersAgree(items[..|items| - 1]);
    }
  }

  /** Texts are put together in order, and nothing else adds text. */
  lemma TextMeans(items: seq<Item>, item: Item)
    ensures TextOf([]) == ""
    ensures TextOf(items + [item]) == TextOf(items) + match item
                                                      case Success(Text(text)) => text
                                                      case _ => ""
  {
    assert (items + [item])[..|items|] == items;
  }

  /** The id is the last one announced that is not empty. */
  lemma {:induction false} IdMeans(id: string, items: seq<Item>, i: nat)
    requires i < |items| && items[i].Success? && items[i].event.Done? && items[i].event.sessionId != ""
    requires forall j :: i < j < |items| && items[j].Success? && items[j].event.Done? ==> items[j].event.sessionId == ""
    ensures IdAfter(id, items) == items[i].event.sessionId
  {
    if i < |items| - 1 {
      IdMeans(id, items[..|items| - 1], i);
    }
  }

  lemma {:induction false} NoIdMeans(id: string, items: seq<Item>)
    requires forall j :: 0 <= j < |items| && items[j].Success? && items[j].event.Done? ==> items[j].event.sessionId == ""
    ensures IdAfter(id, items) == id
  {
    if items != [] {
      NoIdMeans(id, items[..|items| - 1]);
    }
  }

  function ErrorText(item: Item): string
    requires IsError(item)
  {
    if item.Failure? then item.error else item.event.message
  }

  /** `Run` reports the last error. */
  lemma {:induction false} LastErrorMeans(items: seq<Item>, i: nat)
    requires i < |items| && IsError(items[i]) && forall j :: i < j < |items| ==> !IsError(items[j])
    ensures LastError(items) == Option.Some(ErrorText(items[i]))
  {
    if i < |items| - 1 {
      LastErrorMeans(items[..|items| - 1], i);
    }
  }

  /** `StreamToWriter` reports the last failure, or without one the first error event. */
  lemma {:induction false} WriterErrorMeans(items: seq<Item>, i: nat)
    requires i < |items| && IsError(items[i])
    requires if items[i].Failure? then forall j :: i < j < |items| ==> !items[j].Failure?
             else (forall j :: 0 <= j < |items| ==> !items[j].Failure?) && forall j :: 0 <= j < i ==> !IsError(items[j])
    ensures WriterError(items) == Option.Some(ErrorText(items[i]))
  {
    if i < |items| - 1 {
      WriterErrorMeans(items[..|items| - 1], i);
    } else if items[i].Success? {
      NoErrorYet(items[..i]);
    }
  }

  lemma {:induction false} NoErrorYet(items: seq<Item>)
    requires forall j :: 0 <= j < |items| ==> !IsError(items[j])
    ensures WriterError(items) == Option.None && LastError(items) == Option.None
  {
    if items != [] {
      NoErrorYet(items[..|items| - 1]);
    }
  }

  /** What a result holds besides its error: the text, and what the last completion event says, if there is one. */
  lemma ResultMeans(items: seq<Item>, error: Option<string>)
    ensures var r := Summarize(items, error);
            r.output == TextOf(items) && r.sessionId == LastDone(items).0 && r.finish == LastDone(items).1
            && r.error == error && (r.success <==> error == Option.None)
    ensures (forall j :: 0 <= j < |items| ==> !(items[j].Success? && items[j].event.Done?)) ==> LastDone(items) == ("", "")
  {
    if forall j :: 0 <= j < |items| ==> !(items[j].Success? && items[j].event.Done?) {
      NothingDone(items);
    }
  }

  lemma {:induction false} NothingDone(items: seq<Item>)
    requires forall j :: 0 <= j < |items| ==> !(items[j].Success? && items[j].event.Done?)
    ensures LastDone(items) == ("", "")
  {
    if items != [] {
      NothingDone(items[..|items| - 1]);
    }
  }

  /** Session id and finish reason come from the last completion event, whether or not it names an id. */
  lemma {:induction false} LastDoneMeans(items: seq<Item>, i: nat)
    requires i < |items| && items[i].Success? && items[i].event.Done?
    requires forall j :: i < j < |items| ==> !(items[j].Success? && items[j].event.Done?)
    ensures LastDone(items) == (items[i].event.sessionId, items[i].event.finish)
  {
    if i < |items| - 1 {
      LastDoneMeans(items[..|items| - 1], i);
    }
  }

  // ---- Safety of everything yielded ----

  /** Every command that reaches the consumer is the provider's own, allowed by the guardrails, not denied by
      the policy, consented to by the approver where the policy asks for it, and accepted by the hook; and a
      command with all of that does reach the consumer. */
  lemma YieldedCommand(c: Config, items: seq<Item>, yielded: seq<Item>, i: nat, cmd: string)
    requires Filtered(c, items, yielded) && i < |items|
    ensures var v := EvalCommand(c.os, c.rules.commands, c.rules.custom.command, cmd);
            var risk := v.highRisk || c.riskyCommand(cmd);
            yielded[i] == Success(Command(cmd)) <==>
              items[i] == Success(Command(cmd)) && v.allowed && c.policy.commands != ApprovalDeny
              && (c.policy.commands == ApprovalRequired
                  || (c.policy.commands == ApprovalNotRequired && risk && c.policy.highRiskAlways) ==>
                    c.policy.approver.Some? && c.policy.approver.value(i, RunCommand(cmd, risk)))
              && (c.hooks.onCommand.Some? ==> c.hooks.onCommand.value(i, cmd))
  {
    if items[i].Success? && Cleared(c, i, items[i].event) {
      assert yielded[i] == items[i];
    }
  }

  /** The same for every file event that creates or modifies; one with any other action is yielded as it is. */
  lemma YieldedWrite(c: Config, items: seq<Item>, yielded: seq<Item>, i: nat, path: string, action: string)
    requires Filtered(c, items, yielded) && i < |items|
    ensures var v := EvalFile(c.os, c.rules.files, c.rules.custom.file, path, action, c.workDir);
            var risk := v.highRisk || c.riskyPath(path);
            action == "create" || action == "modify" ==>
              (yielded[i] == Success(FileOp(path, action)) <==>
                items[i] == Success(FileOp(path, action)) && v.allowed && c.policy.fileWrites != ApprovalDeny
                && (c.policy.fileWrites == ApprovalRequired
                    || (c.policy.fileWrites == ApprovalNotRequired && risk && c.policy.highRiskAlways) ==>
                      c.policy.approver.Some? && c.policy.approver.value(i, WriteFile(path, action, risk)))
                && (c.hooks.onFileWrite.Some? ==> c.hooks.onFileWrite.value(i, path)))
    ensures action != "create" && action != "modify" ==>
              (yielded[i] == Success(FileOp(path, action)) <==> items[i] == Success(FileOp(path, action)))
  {
    if items[i].Success? && Cleared(c, i, items[i].event) {
      assert yielded[i] == items[i];
    }
  }

  /** A tool call goes through exactly when its hook accepts it, and everything else goes through as it is. */
  lemma YieldedRest(c: Config, items: seq<Item>, yielded: seq<Item>, i: nat)
    requires Filtered(c, items, yielded) && i < |items|
    ensures items[i].Success? && items[i].event.ToolCall? ==>
              (yielded[i] == items[i] <==> (c.hooks.onToolCall.Some? ==> c.hooks.onToolCall.value(i, items[i].event.call)))
    ensures items[i].Failure? || !(items[i].event.Command? || items[i].event.FileOp? || items[i].event.ToolCall?) ==>
              yielded[i] == items[i]
    ensures yielded[i] != items[i] ==> yielded[i].Success? && yielded[i].event.ErrorEvent?
  {
    if items[i].Success? && Cleared(c, i, items[i].event) {
      assert yielded[i] == items[i];
    }
  }

  /** In every run: a command or write that the guardrails deny is shown to nobody; an approver is asked first
      and a hook last, each at most once; and a hook sees only what guardrails, policy and approver let
      through. Nobody is asked about a file event that neither creates nor modifies. */
  lemma RefusedIsNotShown(c: Config, items: seq<Item>, log: seq<seq<Call>>, i: nat, k: nat)
    requires Logged(c, items, log) && i < |items| && k < |log[i]|
    ensures items[i].Success?
    ensures items[i].event.Command? ==>
              EvalCommand(c.os, c.rules.commands, c.rules.custom.command, items[i].event.command).allowed
    ensures items[i].event.FileOp? ==>
              (items[i].event.action == "create" || items[i].event.action == "modify")
              && EvalFile(c.os, c.rules.files, c.rules.custom.file, items[i].event.path, items[i].event.action, c.workDir).allowed
    ensures log[i][k].AskApprover? ==> k == 0
    ensures !log[i][k].AskApprover? ==> k == |log[i]| - 1 && PassesChecks(c, i, items[i].event)
  {}

  /** Who is asked: the approver about exactly the allowed operations whose policy wants approval, and the hook
      of its kind about exactly what passes the checks before it. */
  lemma AskedExactly(c: Config, items: seq<Item>, log: seq<seq<Call>>, i: nat, cmd: string)
    requires Logged(c, items, log) && i < |items| && items[i] == Success(Command(cmd))
    ensures var v := EvalCommand(c.os, c.rules.commands, c.rules.custom.command, cmd);
            var risk := v.highRisk || c.riskyCommand(cmd);
            (AskApprover(RunCommand(cmd, risk)) in log[i] <==>
              v.allowed && c.policy.approver.Some?
              && (c.policy.commands == ApprovalRequired
                  || (c.policy.commands == ApprovalNotRequired && risk && c.policy.highRiskAlways)))
            && (CommandHook(cmd) in log[i] <==> c.hooks.onCommand.Some? && PassesChecks(c, i, Command(cmd)))
  {}

  /** The same for what creates or modifies a file. */
  lemma AskedAboutWrites(c: Config, items: seq<Item>, log: seq<seq<Call>>, i: nat, path: string, action: string)
    requires Logged(c, items, log) && i < |items| && items[i] == Success(FileOp(path, action))
    requires action == "create" || action == "modify"
    ensures var v := EvalFile(c.os, c.rules.files, c.rules.custom.file, path, action, c.workDir);
            var risk := v.highRisk || c.riskyPath(path);
            (AskApprover(WriteFile(path, action, risk)) in log[i] <==>
              v.allowed && c.policy.approver.Some?
              && (c.policy.fileWrites == ApprovalRequired
                  || (c.policy.fileWrites == ApprovalNotRequired && risk && c.policy.highRiskAlways)))
            && (FileHook(path) in log[i] <==> c.hooks.onFileWrite.Some? && PassesChecks(c, i, FileOp(path, action)))
  {}

  /** And the hook for tool calls is asked about every tool call. */
  lemma AskedAboutTools(c: Config, items: seq<Item>, log: seq<seq<Call>>, i: nat, call: string)
    requires Logged(c, items, log) && i < |items| && items[i] == Success(ToolCall(call))
    ensures log[i] == if c.hooks.onToolCall.Some? then [ToolHook(call)] else []
  {}

  /** A policy that denies commands lets none through, whatever guardrails, approver and hooks say; and one
      that denies writes lets no event through that creates or modifies a file. */
  lemma DenyPolicyYieldsNothing(c: Config, items: seq<Item>, yielded: seq<Item>, i: nat)
    requires Filtered(c, items, yielded) && i < |items| && yielded[i].Success?
    ensures c.policy.commands == ApprovalDeny ==> !yielded[i].event.Command?
    ensures c.policy.fileWrites == ApprovalDeny && yielded[i].event.FileOp? ==>
              yielded[i].event.action != "create" && yielded[i].event.action != "modify"
  {
    if yielded[i].event.Command? {
      YieldedCommand(c, items, yielded, i, yielded[i].event.command);
    }
    if yielded[i].event.FileOp? {
      YieldedWrite(c, items, yielded, i, yielded[i].event.path, yielded[i].event.action);
    }
  }

  /** When high-risk operations always need approval, no high-risk command or write is yielded unless an
      approver is configured and said yes to that very operation. */
  lemma HighRiskNeedsApproval(c: Config, items: seq<Item>, yielded: seq<Item>, i: nat)
    requires Filtered(c, items, yielded) && i < |items| && c.policy.highRiskAlways && yielded[i].Success?
    requires c.policy.commands != OtherMode && c.policy.fileWrites != OtherMode
    ensures yielded[i].event.Command? ==>
              var cmd := yielded[i].event.command;
              EvalCommand(c.os, c.rules.commands, c.rules.custom.command, cmd).highRisk || c.riskyCommand(cmd) ==>
                c.policy.approver.Some? && c.policy.approver.value(i, RunCommand(cmd, true))
    ensures yielded[i].event.FileOp? && yielded[i].event.action in {"create", "modify"} ==>
              var path, action := yielded[i].event.path, yielded[i].event.action;
              EvalFile(c.os, c.rules.files, c.rules.custom.file, path, action, c.workDir).highRisk || c.riskyPath(path) ==>
                c.policy.approver.Some? && c.policy.approver.value(i, WriteFile(path, action, true))
  {
    if yielded[i].event.Command? {
      YieldedCommand(c, items, yielded, i, yielded[i].event.command);
    }
    if yielded[i].event.FileOp? {
      YieldedWrite(c, items, yielded, i, yielded[i].event.path, yielded[i].event.action);
    }
  }

  /** Tightening the guardrails with an overlay of deny rules never lets a further command through. */
  lemma OverlayOnlyRemovesCommands(c: Config, o: Rules, cmd: string, turn: nat)
    requires c.rules.custom.command.None? && o.custom.command.None?
    requires o.commands.allowPatterns == [] && o.commands.allowCommands == []
    requires AllPatternsCompile(c.os, c.rules.commands) && AllPatternsCompile(c.os, o.commands)
    requires c.policy.commands == ApprovalRequired ==> c.policy.approver.Some? ==>
               forall t, x :: c.policy.approver.value(t, RunCommand(x, true)) ==> c.policy.approver.value(t, RunCommand(x, false))
    ensures var d := c.(rules := Merge(c.rules, Option.Some(o)));
            CommandCleared(d, turn, cmd) ==> CommandCleared(c, turn, cmd)
  {
    MergeTightensCommands(c.os, c.rules.commands, o.commands, cmd);
  }
}
