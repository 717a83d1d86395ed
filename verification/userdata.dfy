/**
 * The user-data plugin's dispatch engine (`UserDataPlugin` of
 * cloudbaseinit/plugins/windows/userdata.py). A multipart payload is walked
 * part by part against an immutable registry of built-in plugins and a
 * walk-local table of handlers that the payload itself may install; any
 * other payload is run as one script.
 *
 * The pure functions below state what one part (`DispatchPart`), a batch of
 * declared handlers (`AddHandlers`) and a whole walk (`WalkParts`) do; the
 * class `Walk` performs the walk step by step, updating its handler table
 * and recording every call made to a handler or plugin in `log`.
 */
module UserData {
  import opened Wrappers

  /** The content type owned by the plugin that declares new part handlers. */
  const PartHandlerContentType: string := "text/part-handler"
  /** The prefix that marks a payload as multipart. */
  const MultipartPrefix: string := "Content-Type: multipart"
  /** The content-type slot of the call announcing a handler's registration. */
  const BeginSentinel: string := "__begin__"
  /** The content-type slot of the call closing a handler after the walk. */
  const EndSentinel: string := "__end__"

  // ---------------------------------------------------------------------
  // Results and their aggregation
  // ---------------------------------------------------------------------

  datatype Status = PluginExecutionDone | PluginExecuteOnNextBoot

  /** The `(status, reboot)` pair a plugin run reports. */
  datatype ExecutionResult = ExecutionResult(status: Status, reboot: bool)

  /** `(PLUGIN_EXECUTION_DONE, False)`. */
  const Done: ExecutionResult := ExecutionResult(PluginExecutionDone, false)

  /** `_get_plugin_return_value`: a `None` result means done, without reboot. */
  function Normalise(ret: Option<ExecutionResult>): (r: ExecutionResult)
    ensures ret.None? ==> r == Done
    ensures ret.Some? ==> r == ret.value
  {
    match ret
    case None => Done
    case Some(v) => v
  }

  /**
   * Folding two part results: a reboot is needed if either asks for one,
   * and execution is deferred to the next boot if either defers it.
   */
  function Combine(a: ExecutionResult, b: ExecutionResult): ExecutionResult
  {
    ExecutionResult(
      if a.status == PluginExecuteOnNextBoot || b.status == PluginExecuteOnNextBoot
      then PluginExecuteOnNextBoot else PluginExecutionDone,
      a.reboot || b.reboot)
  }

  /** The walk's result: the per-part results folded from `Done`. */
  function Aggregate(results: seq<ExecutionResult>): ExecutionResult
  {
    if results == [] then Done else Combine(Aggregate(results[..|results| - 1]), results[|results| - 1])
  }

  /** The aggregate asks for a reboot exactly when some part did. */
  lemma {:induction false} AggregateReboot(results: seq<ExecutionResult>)
    ensures Aggregate(results).reboot <==> exists k :: 0 <= k < |results| && results[k].reboot
  {
    if results != [] {
      var init := results[..|results| - 1];
      AggregateReboot(init);
      if exists k :: 0 <= k < |init| && init[k].reboot {
        var k :| 0 <= k < |init| && init[k].reboot;
        assert results[k].reboot;
      }
    }
  }

  /** The aggregate defers to the next boot exactly when some part did. */
  lemma {:induction false} AggregateStatus(results: seq<ExecutionResult>)
    ensures Aggregate(results).status == PluginExecuteOnNextBoot
        <==> exists k :: 0 <= k < |results| && results[k].status == PluginExecuteOnNextBoot
  {
    if results != [] {
      var init := results[..|results| - 1];
      AggregateStatus(init);
      if exists k :: 0 <= k < |init| && init[k].status == PluginExecuteOnNextBoot {
        var k :| 0 <= k < |init| && init[k].status == PluginExecuteOnNextBoot;
        assert results[k].status == PluginExecuteOnNextBoot;
      }
    }
  }

  /** A single contributing part's result is the walk's result, reboot flag included. */
  lemma AggregateSingle(r: ExecutionResult)
    ensures Aggregate([r]) == r
  {
    assert [r][..0] == [];
  }

  /** A part that reports `Done` (handler-routed, unroutable, declaring) changes nothing. */
  lemma AggregateIgnoresDone(results: seq<ExecutionResult>)
    ensures Aggregate(results + [Done]) == Aggregate(results)
  {
    assert (results + [Done])[..|results|] == results;
  }

  // ---------------------------------------------------------------------
  // Parts, plugins, handlers
  // ---------------------------------------------------------------------

  /** One part of a parsed multipart payload. */
  datatype Part = Part(contentType: string, filename: Option<string>, payload: string)

  /** A handler function supplied by the payload, known by its identity. */
  datatype Handler = Handler(id: nat)

  /** What a call into a plugin does: return a value, or raise an exception. */
  datatype Raising<+T> = Returned(value: T) | Raised

  /**
   * A built-in plugin. The part-handler plugin's `process` yields the
   * handlers a part declares, as (content type, handler) entries; every other
   * plugin's `process` yields a result or `None`. Either may raise instead.
   */
  datatype Plugin =
    | PartHandlerPlugin(declare: Part -> Raising<seq<(string, Handler)>>)
    | LeafPlugin(run: Part -> Raising<Option<ExecutionResult>>)

  /** The exception that ends a walk: the plugin processing `part` raised. */
  datatype Failure = PluginFailure(part: Part)

  /** The built-in plugins by the content type each declares. */
  type Registry = map<string, Plugin>

  /** Only the part-handler content type is served by the part-handler plugin. */
  predicate WellFormed(reg: Registry)
  {
    forall ct :: ct in reg ==> (reg[ct].PartHandlerPlugin? <==> ct == PartHandlerContentType)
  }

  /** The lifecycle and process events a handler receives. */
  datatype HandlerEvent =
    | Begin
    | Process(contentType: string, filename: Option<string>, payload: string)
    | End

  /** The four positional arguments of a handler call: `(data, ctype, filename, payload)`. */
  datatype HandlerArgs = HandlerArgs(data: Option<string>, contentType: string, filename: Option<string>, payload: Option<string>)

  /** How an event is passed to a handler: lifecycle events use sentinel content types. */
  function Args(e: HandlerEvent): (a: HandlerArgs)
    ensures e == Begin ==> a == HandlerArgs(None, BeginSentinel, None, None)
    ensures e == End ==> a == HandlerArgs(None, EndSentinel, None, None)
    ensures e.Process? ==> a == HandlerArgs(None, e.contentType, e.filename, Some(e.payload))
  {
    match e
    case Begin => HandlerArgs(None, BeginSentinel, None, None)
    case Process(ct, fn, p) => HandlerArgs(None, ct, fn, Some(p))
    case End => HandlerArgs(None, EndSentinel, None, None)
  }

  /** How a handler written to the protocol reads its arguments back. */
  function ReadArgs(a: HandlerArgs): Option<HandlerEvent>
  {
    if a.contentType == BeginSentinel then Some(Begin)
    else if a.contentType == EndSentinel then Some(End)
    else if a.payload.Some? then Some(Process(a.contentType, a.filename, a.payload.value))
    else None
  }

  /** A MIME content type is `maintype/subtype`, so it never equals a sentinel. */
  predicate IsMimeType(ct: string)
  {
    '/' in ct
  }

  /** Handlers read back every event the engine sends them. */
  lemma ArgsRoundTrip(e: HandlerEvent)
    requires e.Process? ==> IsMimeType(e.contentType)
    ensures ReadArgs(Args(e)) == Some(e)
  {
    if e.Process? {
      assert '/' !in BeginSentinel && '/' !in EndSentinel;
    }
  }

  /** What the engine does, in order: calls to handlers, plugins and the script runner. */
  datatype Effect =
    | HandlerCalled(handler: Handler, args: HandlerArgs)
    | PluginProcessed(part: Part)
    | ScriptExecuted(script: string)

  // ---------------------------------------------------------------------
  // The specification of one part and of a walk
  // ---------------------------------------------------------------------

  /** A handler table together with the calls made while producing it. */
  datatype Registration = Registration(table: map<string, Handler>, effects: seq<Effect>)

  /**
   * `_add_part_handlers`: install each declared handler, in order, unless a
   * built-in plugin owns its content type, announcing each installation with
   * a begin event.
   */
  function AddHandlers(reg: Registry, table: map<string, Handler>, decls: seq<(string, Handler)>): (r: Registration)
    ensures table.Keys <= r.table.Keys
    ensures forall ct :: ct in r.table && ct !in table ==> ct !in reg
    ensures |r.effects| <= |decls|
  {
    if decls == [] then Registration(table, [])
    else
      var prev := AddHandlers(reg, table, decls[..|decls| - 1]);
      var ct := decls[|decls| - 1].0;
      var h := decls[|decls| - 1].1;
      if ct in reg then prev
      else Registration(prev.table[ct := h], prev.effects + [HandlerCalled(h, Args(Begin))])
  }

  /** The content types that some declaration claims and no built-in plugin owns. */
  function Claimed(reg: Registry, decls: seq<(string, Handler)>): set<string>
  {
    set i | 0 <= i < |decls| && decls[i].0 !in reg :: decls[i].0
  }

  /** The handlers declared for a content type no built-in plugin owns. */
  function Accepted(reg: Registry, decls: seq<(string, Handler)>): set<Handler>
  {
    set i | 0 <= i < |decls| && decls[i].0 !in reg :: decls[i].1
  }

  /**
   * Built-in precedence: declarations can only add content types no built-in
   * plugin owns; the entries for owned types are left exactly as they were.
   */
  lemma {:induction false} AddHandlersPrecedence(reg: Registry, table: map<string, Handler>, decls: seq<(string, Handler)>)
    ensures AddHandlers(reg, table, decls).table.Keys == table.Keys + Claimed(reg, decls)
    ensures forall ct :: ct in reg && ct in table ==> AddHandlers(reg, table, decls).table[ct] == table[ct]
  {
    if decls != [] {
      var init := decls[..|decls| - 1];
      AddHandlersPrecedence(reg, table, init);
      var last := |decls| - 1;
      assert forall i :: 0 <= i < |init| ==> init[i] == decls[i];
      if decls[last].0 !in reg {
        assert Claimed(reg, decls) == Claimed(reg, init) + {decls[last].0};
      } else {
        assert Claimed(reg, decls) == Claimed(reg, init);
      }
    }
  }

  /** Every effect in `effects` is a begin event sent to one of `hs`. */
  ghost predicate OnlyBeginsTo(effects: seq<Effect>, hs: set<Handler>)
  {
    forall k :: 0 <= k < |effects| ==>
      effects[k].HandlerCalled? && effects[k].args == Args(Begin) && effects[k].handler in hs
  }

  /**
   * Every call `_add_part_handlers` makes is a begin event to a handler it
   * accepted.
   */
  lemma {:induction false} AddHandlersOnlyBegins(reg: Registry, table: map<string, Handler>, decls: seq<(string, Handler)>)
    ensures OnlyBeginsTo(AddHandlers(reg, table, decls).effects, Accepted(reg, decls))
  {
    if decls != [] {
      var init := decls[..|decls| - 1];
      var last := |decls| - 1;
      var prev := AddHandlers(reg, table, init);
      AddHandlersOnlyBegins(reg, table, init);
      assert OnlyBeginsTo(prev.effects, Accepted(reg, init));
      assert forall i :: 0 <= i < |init| ==> init[i] == decls[i];
      assert Accepted(reg, init) <= Accepted(reg, decls);
      if decls[last].0 !in reg {
        assert decls[last].1 in Accepted(reg, decls);
        assert AddHandlers(reg, table, decls).effects == prev.effects + [HandlerCalled(decls[last].1, Args(Begin))];
      }
    }
  }

  /** The positions of the declarations whose content type no built-in plugin owns. */
  function Unowned(reg: Registry, decls: seq<(string, Handler)>): set<nat>
  {
    set i: nat | i < |decls| && decls[i].0 !in reg
  }

  /** The unowned positions of one more declaration: those before, and the new one if it is unowned. */
  lemma UnownedNext(reg: Registry, decls: seq<(string, Handler)>)
    requires decls != []
    ensures var last := |decls| - 1;
      Unowned(reg, decls) == Unowned(reg, decls[..last]) + (if decls[last].0 in reg then {} else {last})
  {
    var last := |decls| - 1;
    assert forall i :: 0 <= i < last ==> decls[..last][i] == decls[i];
  }

  /** `_add_part_handlers` sends one begin event per declaration whose content type no plugin owns. */
  lemma {:induction false} AddHandlersBeginCount(reg: Registry, table: map<string, Handler>, decls: seq<(string, Handler)>)
    ensures |AddHandlers(reg, table, decls).effects| == |Unowned(reg, decls)|
  {
    if decls != [] {
      var last := |decls| - 1;
      AddHandlersBeginCount(reg, table, decls[..last]);
      UnownedNext(reg, decls);
      assert last !in Unowned(reg, decls[..last]);
    }
  }

  /** Every handler `_add_part_handlers` installs has received its begin event. */
  lemma {:induction false} AddHandlersBeginsInstalled(reg: Registry, table: map<string, Handler>, decls: seq<(string, Handler)>)
    ensures var r := AddHandlers(reg, table, decls);
      forall ct :: ct in r.table && (ct !in table || r.table[ct] != table[ct]) ==>
        HandlerCalled(r.table[ct], Args(Begin)) in r.effects
  {
    if decls != [] {
      AddHandlersBeginsInstalled(reg, table, decls[..|decls| - 1]);
    }
  }

  /** What processing one part does to the handler table, what it calls, and its result or exception. */
  datatype PartOutcome = PartOutcome(table: map<string, Handler>, effects: seq<Effect>, result: Result<ExecutionResult, Failure>)

  /**
   * `_process_part`: the handler table first (the handler gets the part's
   * content type, filename and payload); then the registry, where the
   * part-handler plugin's output installs handlers and any other plugin's
   * output is the part's result; a part neither knows is ignored. A plugin
   * that raises leaves the table as it was.
   */
  function DispatchPart(reg: Registry, table: map<string, Handler>, part: Part): PartOutcome
    requires WellFormed(reg)
  {
    var ct := part.contentType;
    if ct in table then
      PartOutcome(table, [HandlerCalled(table[ct], Args(Process(ct, part.filename, part.payload)))], Success(Normalise(None)))
    else if ct !in reg then
      PartOutcome(table, [], Success(Normalise(None)))
    else if ct == PartHandlerContentType then
      var answer := reg[ct].declare(part);
      if answer.Raised? then PartOutcome(table, [PluginProcessed(part)], Failure(PluginFailure(part)))
      else
        var added := AddHandlers(reg, table, answer.value);
        PartOutcome(added.table, [PluginProcessed(part)] + added.effects, Success(Normalise(None)))
    else
      var answer := reg[ct].run(part);
      PartOutcome(table, [PluginProcessed(part)],
        if answer.Raised? then Failure(PluginFailure(part)) else Success(Normalise(answer.value)))
  }

  /**
   * How `_process_part` routes a part: a declared handler first, then the
   * built-in plugin that owns the type; only the part-handler plugin changes
   * the table, and an exception leaves it as it was and names the part.
   */
  lemma DispatchPartRouting(reg: Registry, table: map<string, Handler>, part: Part)
    requires WellFormed(reg)
    ensures var o := DispatchPart(reg, table, part);
      && table.Keys <= o.table.Keys
      && (o.table != table ==> part.contentType == PartHandlerContentType && part.contentType !in table)
      && (part.contentType in table ==>
            o.effects == [HandlerCalled(table[part.contentType], Args(Process(part.contentType, part.filename, part.payload)))])
      && (part.contentType !in table && part.contentType in reg ==> o.effects != [] && o.effects[0] == PluginProcessed(part))
      && (part.contentType !in table && part.contentType !in reg ==> o == PartOutcome(table, [], Success(Done)))
      && (o.result.Failure? ==> o.table == table && o.effects == [PluginProcessed(part)] && o.result.error == PluginFailure(part))
      && (o.result.Success? && part.contentType == PartHandlerContentType ==> o.result.value == Done)
  {
  }

  /**
   * What a walk over some parts leaves: the table, every call in order, the
   * result of each part processed without an exception, and the exception
   * that ended the walk, if one did.
   */
  datatype WalkState = WalkState(table: map<string, Handler>, effects: seq<Effect>, results: seq<ExecutionResult>, failure: Option<Failure>)

  /** A walk that has not failed, after one more part: its calls are recorded, then its result or its exception. */
  function Advance(s: WalkState, o: PartOutcome): WalkState
  {
    if o.result.Failure? then WalkState(o.table, s.effects + o.effects, s.results, Some(o.result.error))
    else WalkState(o.table, s.effects + o.effects, s.results + [o.result.value], None)
  }

  /**
   * The walk over `parts`, in order, starting from an empty handler table;
   * once a plugin raises, no later part is processed.
   */
  function WalkParts(reg: Registry, parts: seq<Part>): (w: WalkState)
    requires WellFormed(reg)
    ensures w.failure.None? ==> |w.results| == |parts|
    ensures w.failure.Some? ==> |w.results| < |parts| && w.failure.value == PluginFailure(parts[|w.results|])
  {
    if parts == [] then WalkState(map[], [], [], None)
    else
      var s := WalkParts(reg, parts[..|parts| - 1]);
      if s.failure.Some? then s
      else Advance(s, DispatchPart(reg, s.table, parts[|parts| - 1]))
  }

  /** The walk over one more part: the walk so far, then that part dispatched against its table. */
  lemma WalkPartsNext(reg: Registry, parts: seq<Part>, i: nat)
    requires WellFormed(reg) && i < |parts|
    requires WalkParts(reg, parts[..i]).failure.None?
    ensures var s := WalkParts(reg, parts[..i]);
      WalkParts(reg, parts[..i + 1]) == Advance(s, DispatchPart(reg, s.table, parts[i]))
  {
    assert parts[..i + 1][..i] == parts[..i];
  }

  /** Once a plugin has raised, the parts after it change nothing: the exception propagates. */
  lemma {:induction false} WalkStopsAtFailure(reg: Registry, parts: seq<Part>, more: seq<Part>)
    requires WellFormed(reg) && WalkParts(reg, parts).failure.Some?
    ensures WalkParts(reg, parts + more) == WalkParts(reg, parts)
    decreases |more|
  {
    if more == [] {
      assert parts + more == parts;
    } else {
      assert (parts + more)[..|parts + more| - 1] == parts + more[..|more| - 1];
      WalkStopsAtFailure(reg, parts, more[..|more| - 1]);
    }
  }

  // ---------------------------------------------------------------------
  // The lifecycle invariants
  // ---------------------------------------------------------------------

  /** Every handler in the table has been sent its begin event. */
  ghost predicate Begun(table: map<string, Handler>, log: seq<Effect>)
  {
    forall ct :: ct in table ==> HandlerCalled(table[ct], Args(Begin)) in log
  }

  /** A handler is sent a part only after it has been sent its begin event. */
  ghost predicate BegunBeforeProcessed(log: seq<Effect>)
  {
    forall j :: 0 <= j < |log| && log[j].HandlerCalled? && log[j].args.contentType !in {BeginSentinel, EndSentinel} ==>
      HandlerCalled(log[j].handler, Args(Begin)) in log[..j]
  }

  /** The state a walk keeps at every step. */
  ghost predicate WalkInvariant(reg: Registry, table: map<string, Handler>, log: seq<Effect>)
  {
    table.Keys !! reg.Keys && Begun(table, log) && BegunBeforeProcessed(log)
  }

  /** Appending calls that are not part deliveries keeps the order property. */
  lemma AppendKeepsOrder(log: seq<Effect>, more: seq<Effect>)
    requires BegunBeforeProcessed(log)
    requires forall k :: 0 <= k < |more| ==> more[k].HandlerCalled? ==> more[k].args.contentType in {BeginSentinel, EndSentinel}
    ensures BegunBeforeProcessed(log + more)
  {
    var all := log + more;
    forall j | 0 <= j < |all| && all[j].HandlerCalled? && all[j].args.contentType !in {BeginSentinel, EndSentinel}
      ensures HandlerCalled(all[j].handler, Args(Begin)) in all[..j]
    {
      assert j < |log|;
      assert all[..j] == log[..j];
    }
  }

  /** Recording a call to a built-in plugin keeps the walk's invariant. */
  lemma PluginCallKeepsInvariant(reg: Registry, table: map<string, Handler>, log: seq<Effect>, part: Part)
    requires WalkInvariant(reg, table, log)
    ensures WalkInvariant(reg, table, log + [PluginProcessed(part)])
  {
    AppendKeepsOrder(log, [PluginProcessed(part)]);
    forall c | c in table ensures HandlerCalled(table[c], Args(Begin)) in log + [PluginProcessed(part)] {
      assert HandlerCalled(table[c], Args(Begin)) in log;
    }
  }

  /** Installing declared handlers keeps the walk's invariant. */
  lemma AddHandlersKeepsInvariant(reg: Registry, table: map<string, Handler>, log: seq<Effect>, decls: seq<(string, Handler)>)
    requires WalkInvariant(reg, table, log)
    ensures var added := AddHandlers(reg, table, decls); WalkInvariant(reg, added.table, log + added.effects)
  {
    var added := AddHandlers(reg, table, decls);
    AddHandlersPrecedence(reg, table, decls);
    AddHandlersOnlyBegins(reg, table, decls);
    AddHandlersBeginsInstalled(reg, table, decls);
    AppendKeepsOrder(log, added.effects);
    forall c | c in added.table ensures HandlerCalled(added.table[c], Args(Begin)) in log + added.effects {
      if c in table && added.table[c] == table[c] {
        assert HandlerCalled(table[c], Args(Begin)) in log;
      } else {
        assert HandlerCalled(added.table[c], Args(Begin)) in added.effects;
      }
    }
  }

  /** One part keeps the walk's invariant: no handler for an owned type, begin before process. */
  lemma DispatchKeepsInvariant(reg: Registry, table: map<string, Handler>, log: seq<Effect>, part: Part)
    requires WellFormed(reg) && WalkInvariant(reg, table, log)
    ensures var o := DispatchPart(reg, table, part); WalkInvariant(reg, o.table, log + o.effects)
  {
    var o := DispatchPart(reg, table, part);
    var ct := part.contentType;
    if ct in table {
      var all := log + o.effects;
      assert all[..|log|] == log;
      forall j | 0 <= j < |all| && all[j].HandlerCalled? && all[j].args.contentType !in {BeginSentinel, EndSentinel}
        ensures HandlerCalled(all[j].handler, Args(Begin)) in all[..j]
      {
        if j < |log| {
          assert all[..j] == log[..j];
        } else {
          assert all[j].handler == table[ct];
          assert HandlerCalled(table[ct], Args(Begin)) in log;
          assert log <= all[..j];
        }
      }
    } else if ct in reg && ct == PartHandlerContentType && reg[ct].declare(part).Returned? {
      var decls := reg[ct].declare(part).value;
      var added := AddHandlers(reg, table, decls);
      PluginCallKeepsInvariant(reg, table, log, part);
      AddHandlersKeepsInvariant(reg, table, log + [PluginProcessed(part)], decls);
      assert log + o.effects == (log + [PluginProcessed(part)]) + added.effects;
    } else {
      AppendKeepsOrder(log, o.effects);
    }
  }

  /**
   * The invariant holds after every walk, failed or not. A walk that did not
   * fail has one result per part; one that failed stopped at the part after
   * the last result, whose plugin raised.
   */
  lemma {:induction false} WalkKeepsInvariant(reg: Registry, parts: seq<Part>)
    requires WellFormed(reg)
    ensures var w := WalkParts(reg, parts); WalkInvariant(reg, w.table, w.effects)
    ensures var w := WalkParts(reg, parts); w.failure.None? ==> |w.results| == |parts|
    ensures var w := WalkParts(reg, parts);
      w.failure.Some? ==> |w.results| < |parts| && w.failure.value == PluginFailure(parts[|w.results|])
  {
    if parts != [] {
      var init := parts[..|parts| - 1];
      WalkKeepsInvariant(reg, init);
      var s := WalkParts(reg, init);
      if s.failure.None? {
        DispatchKeepsInvariant(reg, s.table, s.effects, parts[|parts| - 1]);
      }
    }
  }

  /**
   * A plugin that raises ends the walk: its part is the last one processed,
   * the calls made so far stand, and no later part reaches any handler or plugin.
   */
  lemma PluginFailureAbortsWalk(reg: Registry, earlier: seq<Part>, part: Part, later: seq<Part>)
    requires WellFormed(reg) && WalkParts(reg, earlier).failure.None?
    requires part.contentType in reg && part.contentType != PartHandlerContentType
    requires reg[part.contentType].run(part).Raised?
    ensures var s := WalkParts(reg, earlier);
      WalkParts(reg, earlier + [part] + later)
        == WalkState(s.table, s.effects + [PluginProcessed(part)], s.results, Some(PluginFailure(part)))
  {
    var parts := earlier + [part];
    WalkKeepsInvariant(reg, earlier);
    assert parts[..|earlier|] == earlier;
    WalkPartsNext(reg, parts, |earlier|);
    assert parts[..|earlier| + 1] == parts;
    WalkStopsAtFailure(reg, parts, later);
  }

  /**
   * Built-in precedence during a walk: a part whose content type a built-in
   * plugin owns always reaches that plugin, whatever earlier parts declared.
   */
  lemma BuiltinPrecedence(reg: Registry, earlier: seq<Part>, part: Part)
    requires WellFormed(reg) && part.contentType in reg
    ensures var o := DispatchPart(reg, WalkParts(reg, earlier).table, part);
      && o.effects[0] == PluginProcessed(part)
      && (part.contentType != PartHandlerContentType ==>
            var answer := reg[part.contentType].run(part);
            && o.effects == [PluginProcessed(part)]
            && (answer.Returned? ==> o.result == Success(Normalise(answer.value)))
            && (answer.Raised? ==> o.result == Failure(PluginFailure(part))))
  {
    WalkKeepsInvariant(reg, earlier);
  }

  /** A walk over no parts calls nothing and is done without reboot. */
  lemma EmptyWalk(reg: Registry)
    requires WellFormed(reg)
    ensures WalkParts(reg, []) == WalkState(map[], [], [], None)
    ensures Aggregate(WalkParts(reg, []).results) == Done
  {
  }

  /**
   * A single part is processed once, against the fresh empty table; its
   * result is the walk's result, and its exception the walk's exception.
   */
  lemma SinglePartWalk(reg: Registry, part: Part)
    requires WellFormed(reg)
    ensures var w := WalkParts(reg, [part]); var o := DispatchPart(reg, map[], part);
      && w.effects == o.effects
      && (o.result.Success? ==> w.failure.None? && w.results == [o.result.value] && Aggregate(w.results) == o.result.value)
      && (o.result.Failure? ==> w.failure == Some(o.result.error) && w.results == [])
  {
    assert [part][..0] == [];
    var o := DispatchPart(reg, map[], part);
    if o.result.Success? {
      AggregateSingle(o.result.value);
    }
  }

  // ---------------------------------------------------------------------
  // End events
  // ---------------------------------------------------------------------

  /**
   * `ends` sends one end event per content type in `cts`, each to the
   * handler the table holds for it, and no content type twice.
   */
  ghost predicate EndsInOrder(ends: seq<Effect>, cts: seq<string>, table: map<string, Handler>)
  {
    && |ends| == |cts|
    && (forall i :: 0 <= i < |cts| ==> cts[i] in table && ends[i] == HandlerCalled(table[cts[i]], Args(End)))
    && (forall i, j :: 0 <= i < j < |cts| ==> cts[i] != cts[j])
  }

  /**
   * `ends` sends exactly one end event for each entry of `table`, to that
   * entry's handler, in some order, and nothing else.
   */
  ghost predicate EndsFor(ends: seq<Effect>, table: map<string, Handler>)
  {
    exists cts :: EndsInOrder(ends, cts, table) && |cts| == |table.Keys| && forall ct :: ct in table ==> ct in cts
  }

  /** The end events for a table of one entry are that entry's handler's single end call. */
  lemma EndsForOne(ends: seq<Effect>, ct: string, h: Handler)
    requires EndsFor(ends, map[ct := h])
    ensures ends == [HandlerCalled(h, Args(End))]
  {
    var cts :| EndsInOrder(ends, cts, map[ct := h]) && |cts| == |map[ct := h].Keys|;
    assert map[ct := h].Keys == {ct};
  }

  /** Sending an end event keeps the walk's invariant. */
  lemma EndKeepsInvariant(reg: Registry, table: map<string, Handler>, log: seq<Effect>, h: Handler)
    requires WalkInvariant(reg, table, log)
    ensures WalkInvariant(reg, table, log + [HandlerCalled(h, Args(End))])
  {
    AppendKeepsOrder(log, [HandlerCalled(h, Args(End))]);
    forall c | c in table ensures HandlerCalled(table[c], Args(Begin)) in log + [HandlerCalled(h, Args(End))] {
      assert HandlerCalled(table[c], Args(Begin)) in log;
    }
  }

  /** One more end event, for an entry not yet ended, extends the end events by that entry. */
  lemma EndsInOrderNext(ends: seq<Effect>, cts: seq<string>, table: map<string, Handler>, ct: string)
    requires EndsInOrder(ends, cts, table) && ct in table && ct !in cts
    ensures EndsInOrder(ends + [HandlerCalled(table[ct], Args(End))], cts + [ct], table)
  {
    var cts' := cts + [ct];
    forall i, j | 0 <= i < j < |cts'| ensures cts'[i] != cts'[j] {
      if j == |cts| {
        assert cts'[i] == cts[i];
      }
    }
  }

  // ---------------------------------------------------------------------
  // The walk, step by step
  // ---------------------------------------------------------------------

  /** One walk over a multipart payload: the registry, the walk-local handler table, and the calls made. */
  class Walk {
    const registry: Registry
    var table: map<string, Handler>
    var log: seq<Effect>

    ghost predicate Valid()
      reads this
    {
      WellFormed(registry) && WalkInvariant(registry, table, log)
    }

    /** A walk starts with a fresh, empty handler table. */
    constructor (registry: Registry)
      requires WellFormed(registry)
      ensures Valid()
      ensures this.registry == registry && table == map[] && log == []
    {
      this.registry := registry;
      table := map[];
      log := [];
    }

    /** `_begin_part_process_event(handler)`: `handler(None, "__begin__", None, None)`. */
    method BeginPartProcessEvent(h: Handler)
      modifies this
      ensures table == old(table)
      ensures log == old(log) + [HandlerCalled(h, HandlerArgs(None, BeginSentinel, None, None))]
    {
      log := log + [HandlerCalled(h, Args(Begin))];
    }

    /** `_end_part_process_event(handler)`: `handler(None, "__end__", None, None)`. */
    method EndPartProcessEvent(h: Handler)
      modifies this
      ensures table == old(table)
      ensures log == old(log) + [HandlerCalled(h, HandlerArgs(None, EndSentinel, None, None))]
    {
      log := log + [HandlerCalled(h, Args(End))];
    }

    /** `_add_part_handlers(plugins, handlers, new_handlers)`. */
    method AddPartHandlers(decls: seq<(string, Handler)>)
      requires Valid()
      modifies this
      ensures Valid()
      ensures table == AddHandlers(registry, old(table), decls).table
      ensures log == old(log) + AddHandlers(registry, old(table), decls).effects
    {
      for i := 0 to |decls|
        invariant table == AddHandlers(registry, old(table), decls[..i]).table
        invariant log == old(log) + AddHandlers(registry, old(table), decls[..i]).effects
      {
        assert decls[..i + 1][..i] == decls[..i];
        var ct := decls[i].0;
        var h := decls[i].1;
        if ct !in registry {
          table := table[ct := h];
          BeginPartProcessEvent(h);
        }
      }
      assert decls[..|decls|] == decls;
      AddHandlersKeepsInvariant(registry, old(table), old(log), decls);
    }

    /** `_process_part(part, plugins, handlers)`. */
    method ProcessPart(part: Part) returns (r: Result<ExecutionResult, Failure>)
      requires Valid()
      modifies this
      ensures Valid()
      ensures var o := DispatchPart(registry, old(table), part);
        table == o.table && log == old(log) + o.effects && r == o.result
    {
      var ct := part.contentType;
      if ct in table {
        var handler := table[ct];
        log := log + [HandlerCalled(handler, Args(Process(ct, part.filename, part.payload)))];
        r := Success(Normalise(None));
      } else if ct !in registry {
        r := Success(Normalise(None));
      } else if ct == PartHandlerContentType {
        PluginCallKeepsInvariant(registry, table, log, part);
        log := log + [PluginProcessed(part)];
        var answer := registry[ct].declare(part);
        if answer.Raised? {
          r := Failure(PluginFailure(part));
        } else {
          AddPartHandlers(answer.value);
          r := Success(Normalise(None));
        }
      } else {
        log := log + [PluginProcessed(part)];
        var answer := registry[ct].run(part);
        if answer.Raised? {
          r := Failure(PluginFailure(part));
        } else {
          r := Success(Normalise(answer.value));
        }
      }
      DispatchKeepsInvariant(registry, old(table), old(log), part);
    }

    /**
     * After the last part: one end event for each entry still in the table,
     * to that entry's handler, in no fixed order.
     */
    method EndAll()
      requires Valid()
      modifies this
      ensures Valid()
      ensures table == old(table)
      ensures |log| >= |old(log)| && log[..|old(log)|] == old(log)
      ensures EndsFor(log[|old(log)|..], table)
    {
      var remaining := table.Keys;
      ghost var cts: seq<string> := [];
      ghost var ends: seq<Effect> := [];
      while remaining != {}
        invariant table == old(table) && WellFormed(registry)
        invariant remaining <= table.Keys
        invariant forall ct :: ct in table ==> (ct in remaining <==> ct !in cts)
        invariant |cts| + |remaining| == |table.Keys|
        invariant log == old(log) + ends
        invariant EndsInOrder(ends, cts, table)
        invariant WalkInvariant(registry, table, log)
        decreases remaining
      {
        var ct :| ct in remaining;
        ghost var before := log;
        EndPartProcessEvent(table[ct]);
        EndKeepsInvariant(registry, table, before, table[ct]);
        EndsInOrderNext(ends, cts, table, ct);
        ends := ends + [HandlerCalled(table[ct], Args(End))];
        cts := cts + [ct];
        remaining := remaining - {ct};
      }
      assert log[|old(log)|..] == ends;
    }
  }

  // ---------------------------------------------------------------------
  // The plugin entry points
  // ---------------------------------------------------------------------

  /**
   * The collaborators of one run: the built-in plugins the factory loads,
   * the MIME parser's view of a payload, and the script runner.
   */
  datatype Environment = Environment(
    registry: Registry,
    parseMime: string -> seq<Part>,
    runScript: string -> Option<ExecutionResult>)

  /** A payload is multipart when it starts with `Content-Type: multipart`. */
  predicate IsMultipart(userData: string)
  {
    MultipartPrefix <= userData
  }

  /** What `_process_user_data` returns, or the exception it lets through. */
  function UserDataResult(env: Environment, userData: string): (r: Result<ExecutionResult, Failure>)
    requires WellFormed(env.registry)
    ensures !IsMultipart(userData) ==> r.Success?
    ensures r.Failure? ==> IsMultipart(userData) && r.error.part in env.parseMime(userData)
  {
    if IsMultipart(userData) then
      var w := WalkParts(env.registry, env.parseMime(userData));
      if w.failure.Some? then Failure(w.failure.value) else Success(Aggregate(w.results))
    else Success(Normalise(env.runScript(userData)))
  }

  /** A non-multipart payload's result is its script's result, normalised. */
  lemma NonMultipartResult(env: Environment, userData: string)
    requires WellFormed(env.registry) && !IsMultipart(userData)
    ensures UserDataResult(env, userData) == Success(Normalise(env.runScript(userData)))
    ensures env.runScript(userData).None? ==> UserDataResult(env, userData) == Success(Done)
  {
  }

  /**
   * A multipart payload with a single part returns that part's result, or
   * raises its exception, as processed with an empty table.
   */
  lemma MultipartSinglePartResult(env: Environment, userData: string)
    requires WellFormed(env.registry) && IsMultipart(userData) && |env.parseMime(userData)| == 1
    ensures UserDataResult(env, userData) == DispatchPart(env.registry, map[], env.parseMime(userData)[0]).result
  {
    var parts := env.parseMime(userData);
    assert parts == [parts[0]];
    SinglePartWalk(env.registry, parts[0]);
  }

  /**
   * `_process_non_multi_part(user_data)`: run the payload as a script and
   * normalise what it returns.
   */
  method ProcessNonMultiPart(env: Environment, userData: string) returns (r: ExecutionResult, effects: seq<Effect>)
    ensures r == Normalise(env.runScript(userData))
    ensures effects == [ScriptExecuted(userData)]
  {
    effects := [ScriptExecuted(userData)];
    r := Normalise(env.runScript(userData));
  }

  /**
   * `_process_user_data(user_data)`: walk the parts of a multipart payload
   * with a fresh walk, closing every entry left in its table, or run any
   * other payload as a script. An exception from a plugin ends the walk at
   * once: no later part is processed and no end event is sent.
   */
  method ProcessUserData(env: Environment, userData: string) returns (r: Result<ExecutionResult, Failure>, effects: seq<Effect>)
    requires WellFormed(env.registry)
    ensures r == UserDataResult(env, userData)
    ensures !IsMultipart(userData) ==> effects == [ScriptExecuted(userData)]
    ensures IsMultipart(userData) ==>
      var w := WalkParts(env.registry, env.parseMime(userData));
      && |effects| >= |w.effects|
      && effects[..|w.effects|] == w.effects
      && (w.failure.Some? ==> effects == w.effects)
      && (w.failure.None? ==> EndsFor(effects[|w.effects|..], w.table))
    ensures BegunBeforeProcessed(effects)
  {
    if !IsMultipart(userData) {
      var result;
      result, effects := ProcessNonMultiPart(env, userData);
      r := Success(result);
      return;
    }
    var parts := env.parseMime(userData);
    var walk := new Walk(env.registry);
    var results: seq<ExecutionResult> := [];
    var failure: Option<Failure> := None;
    var i := 0;
    while i < |parts| && failure.None?
      invariant 0 <= i <= |parts|
      invariant walk.Valid() && walk.registry == env.registry
      invariant walk.table == WalkParts(env.registry, parts[..i]).table
      invariant walk.log == WalkParts(env.registry, parts[..i]).effects
      invariant results == WalkParts(env.registry, parts[..i]).results
      invariant failure == WalkParts(env.registry, parts[..i]).failure
    {
      WalkPartsNext(env.registry, parts, i);
      var partResult := walk.ProcessPart(parts[i]);
      if partResult.Failure? {
        failure := Some(partResult.error);
      } else {
        results := results + [partResult.value];
      }
      i := i + 1;
    }
    if failure.Some? {
      WalkStopsAtFailure(env.registry, parts[..i], parts[i..]);
      assert parts[..i] + parts[i..] == parts;
      effects := walk.log;
      r := Failure(failure.value);
      return;
    }
    assert parts[..i] == parts;
    ghost var w := WalkParts(env.registry, parts);
    assert walk.table == w.table && walk.log == w.effects && results == w.results && w.failure.None?;
    walk.EndAll();
    effects := walk.log;
    r := Success(Aggregate(results));
  }

  /** What the metadata service answered when asked for the user data. */
  datatype UserDataFetch = NotExistingMetadata | NoUserData | UserDataText(text: string)

  /**
   * `execute(service, shared_data)`: without user data (none, or the
   * metadata does not exist) the plugin is done at once; otherwise it
   * returns what `_process_user_data` returns, or raises what it raises.
   */
  method Execute(env: Environment, fetched: UserDataFetch) returns (r: Result<ExecutionResult, Failure>, effects: seq<Effect>)
    requires WellFormed(env.registry)
    ensures !fetched.UserDataText? ==> r == Success(Done) && effects == []
    ensures fetched.UserDataText? ==> r == UserDataResult(env, fetched.text)
    ensures fetched.UserDataText? && !IsMultipart(fetched.text) ==> effects == [ScriptExecuted(fetched.text)]
    ensures fetched.UserDataText? && IsMultipart(fetched.text) ==>
      var w := WalkParts(env.registry, env.parseMime(fetched.text));
      && |effects| >= |w.effects|
      && effects[..|w.effects|] == w.effects
      && (w.failure.Some? ==> effects == w.effects)
      && (w.failure.None? ==> EndsFor(effects[|w.effects|..], w.table))
    ensures BegunBeforeProcessed(effects)
  {
    match fetched
    case UserDataText(text) =>
      r, effects := ProcessUserData(env, text);
    case _ =>
      r, effects := Success(Done), [];
  }

  // ---------------------------------------------------------------------
  // Scenarios
  // ---------------------------------------------------------------------

  /**
   * A part declaring a handler for `text/x-custom`, then a part of that type:
   * the handler is begun, receives the part, and is the one handler to end;
   * the walk is done without reboot.
   */
  lemma DeclaredHandlerScenario(h: Handler, filename: Option<string>)
    ensures var reg := map[PartHandlerContentType := PartHandlerPlugin((p: Part) => Returned([("text/x-custom", h)]))];
      var declaring := Part(PartHandlerContentType, None, "handler source");
      var custom := Part("text/x-custom", filename, "hello");
      WellFormed(reg) &&
      var w := WalkParts(reg, [declaring, custom]);
      && w.effects == [PluginProcessed(declaring), HandlerCalled(h, Args(Begin)),
                       HandlerCalled(h, Args(Process("text/x-custom", filename, "hello")))]
      && w.table == map["text/x-custom" := h]
      && w.failure.None? && Aggregate(w.results) == Done
      && (forall ends :: EndsFor(ends, w.table) ==> ends == [HandlerCalled(h, Args(End))])
  {
    var reg := map[PartHandlerContentType := PartHandlerPlugin((p: Part) => Returned([("text/x-custom", h)]))];
    var declaring := Part(PartHandlerContentType, None, "handler source");
    var custom := Part("text/x-custom", filename, "hello");
    var decls := [("text/x-custom", h)];
    assert reg[PartHandlerContentType].declare(declaring) == Returned(decls);
    assert "text/x-custom" !in reg;
    assert decls[..0] == [];
    assert AddHandlers(reg, map[], decls[..0]) == Registration(map[], []);
    var added := AddHandlers(reg, map[], decls);
    assert added == Registration(map["text/x-custom" := h], [HandlerCalled(h, Args(Begin))]);
    var o1 := DispatchPart(reg, map[], declaring);
    assert o1 == PartOutcome(added.table, [PluginProcessed(declaring)] + added.effects, Success(Done));
    assert [declaring][..0] == [];
    assert WalkParts(reg, [declaring][..0]) == WalkState(map[], [], [], None);
    var w1 := WalkParts(reg, [declaring]);
    assert w1 == WalkState(o1.table, o1.effects, [Done], None);
    var o2 := DispatchPart(reg, w1.table, custom);
    assert o2 == PartOutcome(w1.table, [HandlerCalled(h, Args(Process("text/x-custom", filename, "hello")))], Success(Done));
    assert [declaring, custom][..1] == [declaring];
    var w := WalkParts(reg, [declaring, custom]);
    assert w == WalkState(o2.table, w1.effects + o2.effects, [Done, Done], None);
    assert [Done, Done][..1] == [Done];
    AggregateSingle(Done);
    forall ends | EndsFor(ends, w.table) ensures ends == [HandlerCalled(h, Args(End))] {
      EndsForOne(ends, "text/x-custom", h);
    }
  }

  /** A part no handler and no plugin knows is ignored: no call, no error, done without reboot. */
  lemma UnknownPartScenario(reg: Registry, part: Part)
    requires WellFormed(reg) && part.contentType !in reg
    ensures var w := WalkParts(reg, [part]);
      w.effects == [] && w.table == map[] && w.failure.None? && Aggregate(w.results) == Done
  {
    SinglePartWalk(reg, part);
  }
}
