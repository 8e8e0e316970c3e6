/** One message's way through its middlewares: the exit stack, the nested scopes, publishing and requests. */
module Processing {
  import opened Errors
  import opened Wrappers

  type Raw = string

  datatype SourceType = CONSUME | RESPONSE

  /** `marks` are what scopes have written on the message on its way. */
  datatype Message = Message(body: string, marks: seq<nat>, source: SourceType, decoder: string)

  datatype Command = Command(body: string, marks: seq<nat>)

  /** What a handler or a scope returns; a consumed message itself, when nothing handled it. */
  datatype Reply = Nothing | Answer(text: string) | Whole(message: Message)

  /** How `__aexit__` ends. */
  datatype Leave = Pass | Suppress | Raise(error: Error)

  /**
   * A middleware as one run meets it: its name, whether entering raises, how leaving reacts to the
   * exception it is shown, and its two scopes, which are given what to call next.
   */
  datatype Middleware = Middleware(
    id: nat,
    enter: Option<Error>,
    leave: Option<Error> -> Leave,
    consume: (Message -> Outcome<Reply>, Message) -> Outcome<Reply>,
    publish: (Command -> Outcome<Option<Raw>>, Command) -> Outcome<Option<Raw>>)

  // ----- nested scopes -----

  /** A `partial` of a middleware's scope on the callable inside it. */
  datatype Call = Core | Scoped(m: Middleware, next: Call)

  function Consume(call: Call, core: Message -> Outcome<Reply>, message: Message): Outcome<Reply>
    decreases call
  {
    match call
    case Core => core(message)
    case Scoped(m, next) => m.consume(y => Consume(next, core, y), message)
  }

  function Publish(call: Call, core: Command -> Outcome<Option<Raw>>, cmd: Command): Outcome<Option<Raw>>
    decreases call
  {
    match call
    case Core => core(cmd)
    case Scoped(m, next) => m.publish(y => Publish(next, core, y), cmd)
  }

  /** The first middleware outermost. */
  function Nest(ms: seq<Middleware>): Call {
    if ms == [] then Core else Scoped(ms[0], Nest(ms[1..]))
  }

  function Reverse<T>(s: seq<T>): (r: seq<T>)
    ensures |r| == |s| && forall i :: 0 <= i < |s| ==> r[i] == s[|s| - 1 - i]
  {
    if s == [] then [] else Reverse(s[1..]) + [s[0]]
  }

  lemma {:induction false} ReverseExtend<T>(s: seq<T>, x: T)
    ensures Reverse(s + [x]) == [x] + Reverse(s)
  {
    if s == [] {
      assert (s + [x])[1..] == [];
    } else {
      assert (s + [x])[1..] == s[1..] + [x];
      ReverseExtend(s[1..], x);
    }
  }

  function Ids(ms: seq<Middleware>): seq<nat> {
    seq(|ms|, i requires 0 <= i < |ms| => ms[i].id)
  }

  /** A middleware whose scopes write its name on whatever passes and hand it on. */
  ghost predicate MarksConsumed(m: Middleware) {
    forall next: Message -> Outcome<Reply>, x: Message :: m.consume(next, x) == next(x.(marks := x.marks + [m.id]))
  }

  ghost predicate MarksPublished(m: Middleware) {
    forall next: Command -> Outcome<Option<Raw>>, x: Command ::
      m.publish(next, x) == next(x.(marks := x.marks + [m.id]))
  }

  ghost predicate Marking(ms: seq<Middleware>) {
    ms == [] || (MarksConsumed(ms[0]) && MarksPublished(ms[0]) && Marking(ms[1..]))
  }

  lemma {:induction false} NoMarks(marks: seq<nat>)
    ensures marks + Ids([]) == marks
  {
  }

  lemma {:induction false} MarkFirst(marks: seq<nat>, ms: seq<Middleware>)
    requires ms != []
    ensures marks + Ids(ms) == marks + [ms[0].id] + Ids(ms[1..])
  {
  }

  lemma {:induction false} ConsumeStep(m: Middleware, next: Call, core: Message -> Outcome<Reply>, x: Message)
    requires MarksConsumed(m)
    ensures Consume(Scoped(m, next), core, x) == Consume(next, core, x.(marks := x.marks + [m.id]))
  {
    var inner := y => Consume(next, core, y);
    assert m.consume(inner, x) == inner(x.(marks := x.marks + [m.id]));
  }

  /** Nested consume scopes see a message in the order of the list. */
  lemma {:induction false} ConsumeOrder(ms: seq<Middleware>, core: Message -> Outcome<Reply>, x: Message)
    requires Marking(ms)
    ensures Consume(Nest(ms), core, x) == core(x.(marks := x.marks + Ids(ms)))
    decreases |ms|
  {
    if ms == [] {
      NoMarks(x.marks);
    } else {
      var marked := x.(marks := x.marks + [ms[0].id]);
      ConsumeStep(ms[0], Nest(ms[1..]), core, x);
      ConsumeOrder(ms[1..], core, marked);
      MarkFirst(x.marks, ms);
    }
  }

  /**
   * `out` is what the consume scopes of `ms` make of `x`, the first one outermost: it is given
   * some continuation that answers every message the way the others do.
   */
  ghost predicate Passes(ms: seq<Middleware>, core: Message -> Outcome<Reply>, x: Message, out: Outcome<Reply>)
    decreases |ms|
  {
    if ms == [] then out == core(x)
    else
      exists next: Message -> Outcome<Reply> ::
        (forall y :: Passes(ms[1..], core, y, next(y))) && out == ms[0].consume(next, x)
  }

  lemma {:induction false} NestPasses(ms: seq<Middleware>, core: Message -> Outcome<Reply>, x: Message)
    ensures Passes(ms, core, x, Consume(Nest(ms), core, x))
    decreases |ms|
  {
    if ms != [] {
      var next := y => Consume(Nest(ms[1..]), core, y);
      forall y ensures Passes(ms[1..], core, y, next(y)) {
        NestPasses(ms[1..], core, y);
      }
      assert Consume(Nest(ms), core, x) == ms[0].consume(next, x);
    }
  }

  /** Marking scopes leave one answer: the core's, to the message marked in the order of the list. */
  lemma {:induction false} MarksPass(
    ms: seq<Middleware>, core: Message -> Outcome<Reply>, x: Message, out: Outcome<Reply>)
    requires Marking(ms)
    ensures Passes(ms, core, x, out) <==> out == core(x.(marks := x.marks + Ids(ms)))
    decreases |ms|
  {
    if ms == [] {
      NoMarks(x.marks);
    } else {
      NestPasses(ms, core, x);
      ConsumeOrder(ms, core, x);
      if Passes(ms, core, x, out) {
        var marked := x.(marks := x.marks + [ms[0].id]);
        var next: Message -> Outcome<Reply> :|
          (forall y :: Passes(ms[1..], core, y, next(y))) && out == ms[0].consume(next, x);
        assert out == next(marked);
        MarksPass(ms[1..], core, marked, next(marked));
        MarkFirst(x.marks, ms);
      }
    }
  }

  lemma {:induction false} PublishStep(m: Middleware, next: Call, core: Command -> Outcome<Option<Raw>>, x: Command)
    requires MarksPublished(m)
    ensures Publish(Scoped(m, next), core, x) == Publish(next, core, x.(marks := x.marks + [m.id]))
  {
    var inner := y => Publish(next, core, y);
    assert m.publish(inner, x) == inner(x.(marks := x.marks + [m.id]));
  }

  /** Nested publish scopes see a command in the order of the list. */
  lemma {:induction false} PublishOrder(ms: seq<Middleware>, core: Command -> Outcome<Option<Raw>>, x: Command)
    requires Marking(ms)
    ensures Publish(Nest(ms), core, x) == core(x.(marks := x.marks + Ids(ms)))
    decreases |ms|
  {
    if ms == [] {
      NoMarks(x.marks);
    } else {
      var marked := x.(marks := x.marks + [ms[0].id]);
      PublishStep(ms[0], Nest(ms[1..]), core, x);
      PublishOrder(ms[1..], core, marked);
      MarkFirst(x.marks, ms);
    }
  }

  /** The same for publish scopes. */
  ghost predicate Sends(
    ms: seq<Middleware>, core: Command -> Outcome<Option<Raw>>, x: Command, out: Outcome<Option<Raw>>)
    decreases |ms|
  {
    if ms == [] then out == core(x)
    else
      exists next: Command -> Outcome<Option<Raw>> ::
        (forall y :: Sends(ms[1..], core, y, next(y))) && out == ms[0].publish(next, x)
  }

  lemma {:induction false} NestSends(ms: seq<Middleware>, core: Command -> Outcome<Option<Raw>>, x: Command)
    ensures Sends(ms, core, x, Publish(Nest(ms), core, x))
    decreases |ms|
  {
    if ms != [] {
      var next := y => Publish(Nest(ms[1..]), core, y);
      forall y ensures Sends(ms[1..], core, y, next(y)) {
        NestSends(ms[1..], core, y);
      }
      assert Publish(Nest(ms), core, x) == ms[0].publish(next, x);
    }
  }

  // ----- the exit stack -----

  /** The exception left after a middleware has been shown `seen`. */
  function After(m: Middleware, seen: Option<Error>): Option<Error> {
    match m.leave(seen)
    case Pass => seen
    case Suppress => None
    case Raise(e) => Some(e)
  }

  /** The exception left after all of `ms` have been left, the last one first. */
  function Left(ms: seq<Middleware>, fault: Option<Error>): Option<Error> {
    if ms == [] then fault else After(ms[0], Left(ms[1..], fault))
  }

  /** The longest prefix that is entered. */
  function Entered(ms: seq<Middleware>): (r: seq<Middleware>)
    ensures |r| <= |ms| && r == ms[..|r|]
    ensures forall i :: 0 <= i < |r| ==> ms[i].enter.None?
    ensures |r| < |ms| ==> ms[|r|].enter.Some?
  {
    if ms == [] || ms[0].enter.Some? then [] else [ms[0]] + Entered(ms[1..])
  }

  datatype Event = Entering(index: nat) | Working | Leaving(index: nat, seen: Option<Error>)

  /** Leaving middleware `i` shows it what the ones inside it have left. */
  function Shown(ms: seq<Middleware>, i: int, fault: Option<Error>): Event
    requires 0 <= i < |ms|
  {
    Leaving(i, Left(ms[i + 1..], fault))
  }

  /** The events of leaving all of `ms` are their exits in reverse order. */
  ghost predicate Exits(events: seq<Event>, ms: seq<Middleware>, fault: Option<Error>) {
    |events| == |ms| && forall i :: 0 <= i < |ms| ==> events[i] == Shown(ms, |ms| - 1 - i, fault)
  }

  /** The events of entering `k` middlewares. */
  ghost predicate Entries(events: seq<Event>, k: nat) {
    |events| == k && forall i :: 0 <= i < k ==> events[i] == Entering(i)
  }

  /**
   * The trace of a bracket: entries in order, the work if all were entered, then one exit
   * for each entry in reverse order, each shown what the ones inside it have left.
   */
  ghost predicate Bracketed(events: seq<Event>, ms: seq<Middleware>, fault: Option<Error>) {
    var k := |Entered(ms)|;
    var rest := if k == |ms| then k + 1 else k;
    |events| >= rest && Entries(events[..k], k) && (k == |ms| ==> events[k] == Working) &&
    Exits(events[rest..], Entered(ms), fault)
  }

  lemma {:induction false} WrapNext(ms: seq<Middleware>, k: nat)
    requires k < |ms|
    ensures Nest(Reverse(ms[..k + 1])) == Scoped(ms[k], Nest(Reverse(ms[..k])))
  {
    assert ms[..k + 1] == ms[..k] + [ms[k]];
    ReverseExtend(ms[..k], ms[k]);
    assert Reverse(ms[..k + 1])[1..] == Reverse(ms[..k]);
  }

  lemma {:induction false} EnteredFrom(ms: seq<Middleware>, k: nat)
    requires k < |ms|
    ensures |Entered(ms[k..])| == if ms[k].enter.Some? then 0 else 1 + |Entered(ms[k + 1..])|
  {
    assert ms[k..][0] == ms[k] && ms[k..][1..] == ms[k + 1..];
  }

  method EnterAll(ms: seq<Middleware>) returns (k: nat, fault: Option<Error>, call: Call, events: seq<Event>)
    ensures k == |Entered(ms)|
    ensures fault == if k < |ms| then ms[k].enter else None
    ensures call == Nest(Reverse(ms[..k]))
    ensures Entries(events, k)
  {
    k, call, events := 0, Core, [];
    while k < |ms|
      invariant k <= |ms| && |Entered(ms)| == k + |Entered(ms[k..])|
      invariant call == Nest(Reverse(ms[..k]))
      invariant Entries(events, k)
    {
      EnteredFrom(ms, k);
      if ms[k].enter.Some? {
        return k, ms[k].enter, call, events;
      }
      WrapNext(ms, k);
      call := Scoped(ms[k], call);
      events := events + [Entering(k)];
      k := k + 1;
    }
    fault := None;
  }

  method LeaveAll(ms: seq<Middleware>, fault: Option<Error>) returns (left: Option<Error>, events: seq<Event>)
    ensures left == Left(ms, fault)
    ensures Exits(events, ms, fault)
  {
    left, events := fault, [];
    var n := |ms|;
    while n > 0
      invariant 0 <= n <= |ms| && left == Left(ms[n..], fault)
      invariant |events| == |ms| - n
      invariant forall i :: 0 <= i < |ms| - n ==> events[i] == Shown(ms, |ms| - 1 - i, fault)
    {
      n := n - 1;
      assert ms[n..][0] == ms[n] && ms[n..][1..] == ms[n + 1..];
      events := events + [Leaving(n, left)];
      left := Exited(ms[n], left);
    }
    assert ms[0..] == ms;
  }

  method Exited(m: Middleware, seen: Option<Error>) returns (left: Option<Error>)
    ensures left == After(m, seen)
  {
    left := seen;
    match m.leave(seen) {
      case Pass =>
      case Suppress => left := None;
      case Raise(e) => left := Some(e);
    }
  }

  function FaultOf<T>(o: Outcome<T>): Option<Error> {
    if o.Raised? then Some(o.error) else None
  }

  // ----- process_msg -----

  const UNREACHABLE := Error(Ordinary, false, "AssertionError")

  function ReturnInput(m: Message): Outcome<Reply> {
    Done(Whole(m))
  }

  /** What happens inside the bracket. */
  function Work(
    ms: seq<Middleware>, raw: Raw, parser: Raw -> Outcome<Message>, decoder: string,
    source: SourceType): Outcome<Reply> {
    var k := |Entered(ms)|;
    if k < |ms| then Raised(ms[k].enter.value)
    else
      var parsed := parser(raw);
      if parsed.Raised? then Raised(parsed.error)
      else Consume(Nest(Reverse(ms)), ReturnInput, parsed.value.(source := source, decoder := decoder))
  }

  /** What the bracket makes of it. */
  function Bracket(ms: seq<Middleware>, work: Outcome<Reply>, swallowed: Outcome<Reply>): Outcome<Reply> {
    var left := Left(Entered(ms), FaultOf(work));
    if left.Some? then Raised(left.value) else if work.Raised? then swallowed else work
  }

  /** A middleware that raises nothing of its own while being left. */
  ghost predicate Quiet(m: Middleware) {
    forall seen :: !m.leave(seen).Raise?
  }

  ghost predicate Swallowed(ms: seq<Middleware>, e: Error) {
    exists i :: 0 <= i < |ms| && ms[i].leave(Some(e)).Suppress?
  }

  lemma {:induction false} QuietLeft(ms: seq<Middleware>, fault: Option<Error>)
    requires forall i :: 0 <= i < |ms| ==> Quiet(ms[i])
    ensures Left(ms, fault) == if fault.Some? && Swallowed(ms, fault.value) then None else fault
    decreases |ms|
  {
    if ms != [] {
      QuietLeft(ms[1..], fault);
      assert Quiet(ms[0]);
      if fault.Some? {
        assert Swallowed(ms, fault.value) <==> ms[0].leave(fault).Suppress? || Swallowed(ms[1..], fault.value) by {
          if i :| 0 <= i < |ms| && ms[i].leave(fault).Suppress? && i > 0 {
            assert ms[1..][i - 1] == ms[i];
          }
        }
      }
    }
  }

  /**
   * With middlewares that raise nothing while being left, a run returns what the work
   * returned; and if the work raised, it raises that, unless an entered middleware
   * suppresses it: then `process_msg` says so instead of returning nothing.
   */
  lemma {:induction false} BracketTable(ms: seq<Middleware>, work: Outcome<Reply>, swallowed: Outcome<Reply>)
    requires forall i :: 0 <= i < |ms| ==> Quiet(ms[i])
    ensures Bracket(ms, work, swallowed)
         == if work.Raised? && Swallowed(Entered(ms), work.error) then swallowed else work
  {
    QuietLeft(Entered(ms), FaultOf(work));
  }

  /** `i` is the first middleware that raises on being entered, if any does. */
  ghost predicate FirstRefusal(ms: seq<Middleware>, i: nat) {
    i <= |ms| && (forall j :: 0 <= j < i ==> ms[j].enter.None?) && (i < |ms| ==> ms[i].enter.Some?)
  }

  /**
   * How the inside of the bracket may end: with the exception of the first middleware that
   * refuses, else of the parser, else with what the consume scopes make of the parsed message,
   * the last scope outermost.
   */
  ghost predicate Worked(
    ms: seq<Middleware>, raw: Raw, parser: Raw -> Outcome<Message>, decoder: string, source: SourceType,
    work: Outcome<Reply>) {
    forall i: nat :: FirstRefusal(ms, i) ==>
      if i < |ms| then work == Raised(ms[i].enter.value)
      else if parser(raw).Raised? then work == Raised(parser(raw).error)
      else
        Passes(Reverse(ms), y => Done(Whole(y)),
               parser(raw).value.(source := source, decoder := decoder), work)
  }

  lemma {:induction false} EnteredUpTo(ms: seq<Middleware>, i: nat)
    requires FirstRefusal(ms, i)
    ensures |Entered(ms)| == i
  {
  }

  lemma {:induction false} SameCore(
    ms: seq<Middleware>, core: Message -> Outcome<Reply>, other: Message -> Outcome<Reply>, x: Message,
    out: Outcome<Reply>)
    requires forall y :: core(y) == other(y)
    requires Passes(ms, core, x, out)
    ensures Passes(ms, other, x, out)
    decreases |ms|
  {
    if ms != [] {
      var next: Message -> Outcome<Reply> :|
        (forall y :: Passes(ms[1..], core, y, next(y))) && out == ms[0].consume(next, x);
      forall y ensures Passes(ms[1..], other, y, next(y)) {
        SameCore(ms[1..], core, other, y, next(y));
      }
    }
  }

  lemma {:induction false} WorkIsWorked(
    ms: seq<Middleware>, raw: Raw, parser: Raw -> Outcome<Message>, decoder: string, source: SourceType)
    ensures Worked(ms, raw, parser, decoder, source, Work(ms, raw, parser, decoder, source))
  {
    forall i: nat | FirstRefusal(ms, i) ensures |Entered(ms)| == i {
      EnteredUpTo(ms, i);
    }
    if parser(raw).Done? {
      var x := parser(raw).value.(source := source, decoder := decoder);
      var out := Consume(Nest(Reverse(ms)), ReturnInput, x);
      NestPasses(Reverse(ms), ReturnInput, x);
      SameCore(Reverse(ms), ReturnInput, y => Done(Whole(y)), x, out);
    }
  }

  /** With scopes that mark, the work of a message that is parsed is the message, marked from the last scope on. */
  lemma {:induction false} WorkedMarks(
    ms: seq<Middleware>, raw: Raw, parser: Raw -> Outcome<Message>, decoder: string, source: SourceType,
    work: Outcome<Reply>)
    requires Marking(ms) && FirstRefusal(ms, |ms|) && parser(raw).Done?
    requires Worked(ms, raw, parser, decoder, source, work)
    ensures var x := parser(raw).value;
      work == Done(Whole(x.(source := source, decoder := decoder, marks := x.marks + Reverse(Ids(ms)))))
  {
    MarkingReverse(ms);
    IdsReverse(ms);
    MarksPass(Reverse(ms), y => Done(Whole(y)), parser(raw).value.(source := source, decoder := decoder), work);
  }

  /** An exception of the work comes out of the bracket, unless one of the entered middlewares suppresses it. */
  ghost function Escaped(entered: seq<Middleware>, e: Error, swallowed: Outcome<Reply>): Outcome<Reply> {
    if exists i :: 0 <= i < |entered| && entered[i].leave(Some(e)).Suppress? then swallowed else Raised(e)
  }

  /** What `process_msg` gives under middlewares that raise nothing while being left. */
  ghost predicate QuietRun(
    ms: seq<Middleware>, raw: Raw, parser: Raw -> Outcome<Message>, decoder: string, source: SourceType,
    out: Outcome<Reply>) {
    forall i: nat :: FirstRefusal(ms, i) ==>
      if i < |ms| then out == Escaped(ms[..i], ms[i].enter.value, Raised(UNREACHABLE))
      else if parser(raw).Raised? then out == Escaped(ms, parser(raw).error, Raised(UNREACHABLE))
      else
        Marking(ms) ==>
          var x := parser(raw).value;
          out == Done(Whole(x.(source := source, decoder := decoder, marks := x.marks + Reverse(Ids(ms)))))
  }

  lemma {:induction false} QuietProcessMsg(
    ms: seq<Middleware>, raw: Raw, parser: Raw -> Outcome<Message>, decoder: string, source: SourceType)
    requires forall i :: 0 <= i < |ms| ==> Quiet(ms[i])
    ensures QuietRun(ms, raw, parser, decoder, source,
                     Bracket(ms, Work(ms, raw, parser, decoder, source), Raised(UNREACHABLE)))
  {
    var work := Work(ms, raw, parser, decoder, source);
    WorkIsWorked(ms, raw, parser, decoder, source);
    BracketTable(ms, work, Raised(UNREACHABLE));
    forall i: nat | FirstRefusal(ms, i) ensures Entered(ms) == ms[..i] {
      EnteredUpTo(ms, i);
    }
    if Marking(ms) && FirstRefusal(ms, |ms|) && parser(raw).Done? {
      WorkedMarks(ms, raw, parser, decoder, source, work);
    }
  }

  /** One run of `process_msg` on a message: the bracket around what may happen inside it. */
  ghost predicate RunOf(
    ms: seq<Middleware>, raw: Raw, parser: Raw -> Outcome<Message>, decoder: string, source: SourceType,
    out: Outcome<Reply>, events: seq<Event>) {
    (exists work ::
       Worked(ms, raw, parser, decoder, source, work) &&
       out == Bracket(ms, work, Raised(UNREACHABLE)) && Bracketed(events, ms, FaultOf(work))) &&
    ((forall i :: 0 <= i < |ms| ==> Quiet(ms[i])) ==> QuietRun(ms, raw, parser, decoder, source, out))
  }

  lemma {:induction false} WorkRuns(
    ms: seq<Middleware>, raw: Raw, parser: Raw -> Outcome<Message>, decoder: string, source: SourceType,
    out: Outcome<Reply>, events: seq<Event>)
    requires var work := Work(ms, raw, parser, decoder, source);
      out == Bracket(ms, work, Raised(UNREACHABLE)) && Bracketed(events, ms, FaultOf(work))
    ensures RunOf(ms, raw, parser, decoder, source, out, events)
  {
    WorkIsWorked(ms, raw, parser, decoder, source);
    if forall i :: 0 <= i < |ms| ==> Quiet(ms[i]) {
      QuietProcessMsg(ms, raw, parser, decoder, source);
    }
  }

  method ProcessMsg(
    msg: Option<Raw>, ms: seq<Middleware>, parser: Raw -> Outcome<Message>, decoder: string, source: SourceType)
    returns (out: Outcome<Reply>, events: seq<Event>)
    ensures msg.None? ==> out == Done(Nothing) && events == []
    ensures msg.Some? ==>
      var work := Work(ms, msg.value, parser, decoder, source);
      out == Bracket(ms, work, Raised(UNREACHABLE)) && Bracketed(events, ms, FaultOf(work))
    ensures msg.Some? ==> RunOf(ms, msg.value, parser, decoder, source, out, events)
  {
    if msg.None? {
      return Done(Nothing), [];
    }
    var k, fault, call, entries := EnterAll(ms);
    events := entries;
    var work: Outcome<Reply>;
    if fault.Some? {
      work := Raised(fault.value);
    } else {
      assert ms[..k] == ms;
      events := events + [Working];
      var parsed := parser(msg.value);
      if parsed.Raised? {
        work := Raised(parsed.error);
      } else {
        var message := parsed.value.(source := source, decoder := decoder);
        work := Consume(call, ReturnInput, message);
      }
    }
    var left, exits := LeaveAll(ms[..k], FaultOf(work));
    assert (events + exits)[|events|..] == exits && (events + exits)[..k] == entries;
    events := events + exits;
    if left.Some? {
      out := Raised(left.value);
    } else if work.Done? {
      out := work;
    } else {
      out := Raised(UNREACHABLE);
    }
    WorkRuns(ms, msg.value, parser, decoder, source, out, events);
  }

  // ----- the subscriber's process_message -----

  /** A handler: its parser with its filter, its call, and the publishers its reply goes to. */
  datatype HandlerItem = HandlerItem(
    suitable: Raw -> Outcome<Option<Message>>,
    call: Message -> Outcome<Reply>,
    publishers: seq<Reply -> Option<Error>>)

  const NOT_FOUND := Error(Ordinary, false, "SubscriberNotFound")

  /** The first publisher that fails ends the run. */
  function PublishReply(publishers: seq<Reply -> Option<Error>>, reply: Reply): Option<Error> {
    if publishers == [] then None
    else
      var e := publishers[0](reply);
      if e.Some? then e else PublishReply(publishers[1..], reply)
  }

  function Serve(item: HandlerItem, call: Call, message: Message): Outcome<Reply> {
    var reply := Consume(call, item.call, message);
    if reply.Raised? then reply
    else
      var e := PublishReply(item.publishers, reply.value);
      if e.Some? then Raised(e.value) else reply
  }

  /** What the handlers make of a message: the first one whose filter does not decline it decides. */
  function Handle(items: seq<HandlerItem>, call: Call, raw: Raw): Outcome<Reply> {
    if items == [] then Raised(NOT_FOUND)
    else
      match items[0].suitable(raw)
      case Raised(e) => Raised(e)
      case Done(None) => Handle(items[1..], call, raw)
      case Done(Some(m)) => Serve(items[0], call, m)
  }

  function Processed(ms: seq<Middleware>, items: seq<HandlerItem>, raw: Raw): Outcome<Reply> {
    var k := |Entered(ms)|;
    if k < |ms| then Raised(ms[k].enter.value) else Handle(items, Nest(ms), raw)
  }

  /** `k` is the first handler that does not decline, if any is. */
  ghost predicate FirstTaker(items: seq<HandlerItem>, raw: Raw, k: nat) {
    k <= |items| && (forall i :: 0 <= i < k ==> items[i].suitable(raw) == Done(None)) &&
    (k < |items| ==> items[k].suitable(raw) != Done(None))
  }

  /** `k` is the first publisher that fails to publish the reply, if any does. */
  ghost predicate FirstFailure(publishers: seq<Reply -> Option<Error>>, reply: Reply, k: nat) {
    k <= |publishers| && (forall i :: 0 <= i < k ==> publishers[i](reply).None?) &&
    (k < |publishers| ==> publishers[k](reply).Some?)
  }

  /** What a handler's reply ends in: the first publisher that fails, else the reply. */
  ghost predicate Replied(publishers: seq<Reply -> Option<Error>>, reply: Outcome<Reply>, work: Outcome<Reply>) {
    if reply.Raised? then work == reply
    else
      forall k: nat :: FirstFailure(publishers, reply.value, k) ==>
        work == if k < |publishers| then Raised(publishers[k](reply.value).value) else reply
  }

  /**
   * How the inside of a subscriber's bracket may end: with the exception of the first middleware
   * that refuses, else by the first handler that does not decline, which fails or answers
   * through the consume scopes, the first one outermost, and whose answer is published.
   */
  ghost predicate Handled(ms: seq<Middleware>, items: seq<HandlerItem>, raw: Raw, work: Outcome<Reply>) {
    forall i: nat, k: nat :: FirstRefusal(ms, i) && FirstTaker(items, raw, k) ==>
      if i < |ms| then work == Raised(ms[i].enter.value)
      else if k == |items| then work == Raised(NOT_FOUND)
      else if items[k].suitable(raw).Raised? then work == Raised(items[k].suitable(raw).error)
      else
        exists reply ::
          Passes(ms, items[k].call, items[k].suitable(raw).value.value, reply) &&
          Replied(items[k].publishers, reply, work)
  }

  lemma {:induction false} PublishUpTo(publishers: seq<Reply -> Option<Error>>, reply: Reply, k: nat)
    requires FirstFailure(publishers, reply, k)
    ensures PublishReply(publishers, reply) == if k < |publishers| then publishers[k](reply) else None
    decreases k
  {
    if k > 0 {
      PublishUpTo(publishers[1..], reply, k - 1);
    }
  }

  lemma {:induction false} ServeReplies(ms: seq<Middleware>, item: HandlerItem, message: Message)
    ensures exists reply ::
      Passes(ms, item.call, message, reply) && Replied(item.publishers, reply, Serve(item, Nest(ms), message))
  {
    var reply := Consume(Nest(ms), item.call, message);
    NestPasses(ms, item.call, message);
    forall k: nat | reply.Done? && FirstFailure(item.publishers, reply.value, k)
      ensures PublishReply(item.publishers, reply.value)
           == if k < |item.publishers| then item.publishers[k](reply.value) else None
    {
      PublishUpTo(item.publishers, reply.value, k);
    }
  }

  lemma {:induction false} ProcessedIsHandled(ms: seq<Middleware>, items: seq<HandlerItem>, raw: Raw)
    ensures Handled(ms, items, raw, Processed(ms, items, raw))
  {
    forall i: nat, k: nat | FirstRefusal(ms, i) && FirstTaker(items, raw, k)
      ensures |Entered(ms)| == i
      ensures Handle(items, Nest(ms), raw)
           == if k == |items| then Raised(NOT_FOUND)
              else if items[k].suitable(raw).Raised? then Raised(items[k].suitable(raw).error)
              else Serve(items[k], Nest(ms), items[k].suitable(raw).value.value)
      ensures k < |items| && items[k].suitable(raw).Done? ==>
        exists reply ::
          Passes(ms, items[k].call, items[k].suitable(raw).value.value, reply) &&
          Replied(items[k].publishers, reply, Serve(items[k], Nest(ms), items[k].suitable(raw).value.value))
    {
      EnteredUpTo(ms, i);
      FirstSuitable(items, Nest(ms), raw, k);
      if k < |items| && items[k].suitable(raw).Done? {
        ServeReplies(ms, items[k], items[k].suitable(raw).value.value);
      }
    }
  }

  method ProcessMessage(raw: Raw, ms: seq<Middleware>, items: seq<HandlerItem>)
    returns (out: Outcome<Reply>, events: seq<Event>)
    ensures out == Bracket(ms, Processed(ms, items, raw), Done(Nothing))
    ensures Bracketed(events, ms, FaultOf(Processed(ms, items, raw)))
    ensures exists work ::
      Handled(ms, items, raw, work) && out == Bracket(ms, work, Done(Nothing)) && Bracketed(events, ms, FaultOf(work))
  {
    ProcessedIsHandled(ms, items, raw);
    var k, fault, _, entries := EnterAll(ms);
    events := entries;
    var work: Outcome<Reply>;
    if fault.Some? {
      work := Raised(fault.value);
    } else {
      assert ms[..k] == ms;
      events := events + [Working];
      work := RunHandlers(raw, ms, items);
    }
    var left, exits := LeaveAll(ms[..k], FaultOf(work));
    assert (events + exits)[|events|..] == exits && (events + exits)[..k] == entries;
    events := events + exits;
    if left.Some? {
      return Raised(left.value), events;
    }
    if work.Done? {
      return work, events;
    }
    return Done(Nothing), events;
  }

  method RunHandlers(raw: Raw, ms: seq<Middleware>, items: seq<HandlerItem>) returns (work: Outcome<Reply>)
    ensures work == Handle(items, Nest(ms), raw)
  {
    var i := 0;
    assert items[0..] == items;
    while i < |items|
      invariant i <= |items| && Handle(items, Nest(ms), raw) == Handle(items[i..], Nest(ms), raw)
    {
      assert items[i..][0] == items[i] && items[i..][1..] == items[i + 1..];
      var suitable := items[i].suitable(raw);
      if suitable.Raised? {
        return Raised(suitable.error);
      }
      if suitable.value.Some? {
        var call := Wrapped(ms);
        var reply := Consume(call, items[i].call, suitable.value.value);
        if reply.Raised? {
          return reply;
        }
        var e := PublishAll(items[i].publishers, reply.value);
        return if e.Some? then Raised(e.value) else reply;
      }
      i := i + 1;
    }
    return Raised(NOT_FOUND);
  }

  method PublishAll(publishers: seq<Reply -> Option<Error>>, reply: Reply) returns (e: Option<Error>)
    ensures e == PublishReply(publishers, reply)
  {
    assert publishers[0..] == publishers;
    for i := 0 to |publishers|
      invariant PublishReply(publishers, reply) == PublishReply(publishers[i..], reply)
    {
      assert publishers[i..][0] == publishers[i] && publishers[i..][1..] == publishers[i + 1..];
      e := publishers[i](reply);
      if e.Some? {
        return;
      }
    }
    return None;
  }

  /** Wraps the scopes over the list reversed. */
  method Wrapped(ms: seq<Middleware>) returns (call: Call)
    ensures call == Nest(ms)
  {
    call := Core;
    var n := |ms|;
    while n > 0
      invariant 0 <= n <= |ms| && call == Nest(ms[n..])
    {
      n := n - 1;
      assert ms[n..][0] == ms[n] && ms[n..][1..] == ms[n + 1..];
      call := Scoped(ms[n], call);
    }
    assert ms[0..] == ms;
  }

  // ----- publishing and requests -----

  method BasicPublish(
    cmd: Command, ms: seq<Middleware>,
    producer: Command -> Outcome<Option<Raw>>) returns (out: Outcome<Option<Raw>>)
    ensures out == Publish(Nest(ms), producer, cmd) && Sends(ms, producer, cmd, out)
  {
    NestSends(ms, producer, cmd);
    var call := Wrapped(ms);
    return Publish(call, producer, cmd);
  }

  /** A request goes out through the publish scopes, and its answer comes back through `process_msg`. */
  method BasicRequest(cmd: Command, ms: seq<Middleware>, send: Command -> Outcome<Option<Raw>>,
                      parser: Raw -> Outcome<Message>, decoder: string)
    returns (out: Outcome<Reply>)
    ensures var sent := Publish(Nest(ms), send, cmd);
      out == if sent.Raised? then Raised(sent.error)
             else if sent.value.None? then Done(Nothing)
             else Bracket(ms, Work(ms, sent.value.value, parser, decoder, RESPONSE), Raised(UNREACHABLE))
    ensures exists sent ::
      Sends(ms, send, cmd, sent) &&
      match sent
      case Raised(e) => out == Raised(e)
      case Done(None) => out == Done(Nothing)
      case Done(Some(raw)) => exists events :: RunOf(ms, raw, parser, decoder, RESPONSE, out, events)
  {
    var sent := BasicPublish(cmd, ms, send);
    if sent.Raised? {
      return Raised(sent.error);
    }
    var events;
    out, events := ProcessMsg(sent.value, ms, parser, decoder, RESPONSE);
  }

  // ----- what the bracket promises -----

  /** Middleware `i` is left at the mirror of its entry. */
  lemma {:induction false} Mirrored(events: seq<Event>, ms: seq<Middleware>, fault: Option<Error>, i: nat)
    requires Bracketed(events, ms, fault) && i < |Entered(ms)|
    ensures i < |events| && events[i] == Entering(i)
    ensures events[|events| - 1 - i] == Shown(Entered(ms), i, fault)
  {
    var k := |Entered(ms)|;
    var rest := if k == |ms| then k + 1 else k;
    assert events[..k][i] == Entering(i);
    assert events[rest..][k - 1 - i] == Shown(Entered(ms), i, fault);
  }

  /** Entries and exits are balanced: every entry has its one exit, every exit its one entry. */
  lemma {:induction false} Balanced(events: seq<Event>, ms: seq<Middleware>, fault: Option<Error>, j: nat)
    requires Bracketed(events, ms, fault) && j < |events| && !events[j].Working?
    ensures var i := if events[j].Entering? then j else |events| - 1 - j;
      events[j].index == i < |Entered(ms)| && events[i] == Entering(i) &&
      events[|events| - 1 - i] == Shown(Entered(ms), i, fault)
  {
    if j < |Entered(ms)| {
      Mirrored(events, ms, fault, j);
    } else {
      Mirrored(events, ms, fault, |events| - 1 - j);
    }
  }

  /** What is left of the exception a middleware is shown. */
  ghost predicate LeavesAs(m: Middleware, seen: Option<Error>, left: Option<Error>) {
    match m.leave(seen)
    case Pass => left == seen
    case Suppress => left == None
    case Raise(e) => left == Some(e)
  }

  /**
   * The exits are a chain: the innermost entered middleware is shown how the work ended, every other one what
   * the one left before it has made of what that was shown; what the outermost leaves is left.
   */
  lemma {:induction false} ShownInTurn(events: seq<Event>, ms: seq<Middleware>, fault: Option<Error>, i: nat)
    requires Bracketed(events, ms, fault) && i < |Entered(ms)|
    ensures i < |events| && events[|events| - 1 - i].Leaving?
    ensures var seen := events[|events| - 1 - i].seen;
      (i + 1 == |Entered(ms)| ==> seen == fault) &&
      (i + 1 < |Entered(ms)| ==>
         i + 1 < |events| && var inner := events[|events| - 2 - i];
         inner.Leaving? && LeavesAs(ms[i + 1], inner.seen, seen)) &&
      (i == 0 ==> LeavesAs(ms[0], seen, Left(Entered(ms), fault)))
  {
    Mirrored(events, ms, fault, i);
    var entered := Entered(ms);
    if i + 1 < |entered| {
      Mirrored(events, ms, fault, i + 1);
      assert entered[i + 1..][0] == ms[i + 1] && entered[i + 1..][1..] == entered[i + 2..];
    }
  }

  /** Where an exception that is left can come from: the work, or a middleware that raised it while being left. */
  function Origin(ms: seq<Middleware>, fault: Option<Error>, i: nat): Option<Error>
    requires i <= |ms|
  {
    if i == |ms| then fault
    else
      match ms[i].leave(Left(ms[i + 1..], fault))
      case Raise(e) => Some(e)
      case _ => None
  }

  /** The exception raised at `i` is `e`, and everything outside passes it on. */
  ghost predicate ComesFrom(ms: seq<Middleware>, fault: Option<Error>, e: Error, i: nat) {
    i <= |ms| && Origin(ms, fault, i) == Some(e) && forall j :: 0 <= j < i ==> ms[j].leave(Some(e)).Pass?
  }

  lemma {:induction false} ComesFromInside(ms: seq<Middleware>, fault: Option<Error>, e: Error, i: nat)
    requires ms != [] && i < |ms|
    ensures ComesFrom(ms, fault, e, i + 1) <==> ms[0].leave(Some(e)).Pass? && ComesFrom(ms[1..], fault, e, i)
  {
    assert i < |ms| - 1 ==> ms[1..][i + 1..] == ms[i + 2..];
    assert forall j :: 0 <= j < i ==> ms[1..][j] == ms[j + 1];
    if ms[0].leave(Some(e)).Pass? && ComesFrom(ms[1..], fault, e, i) {
      forall j | 0 <= j < i + 1 ensures ms[j].leave(Some(e)).Pass? {
        assert j > 0 ==> ms[j] == ms[1..][j - 1];
      }
    }
  }

  /** An exception comes out exactly if everything outside the place it came from passed it on. */
  lemma {:induction false} LeftIff(ms: seq<Middleware>, fault: Option<Error>, e: Error)
    ensures Left(ms, fault) == Some(e) <==> exists i: nat :: ComesFrom(ms, fault, e, i)
    decreases |ms|
  {
    if ms == [] {
      assert ComesFrom(ms, fault, e, 0) <==> fault == Some(e);
    } else {
      LeftIff(ms[1..], fault, e);
      assert ComesFrom(ms, fault, e, 0) <==> ms[0].leave(Left(ms[1..], fault)) == Leave.Raise(e);
      if i: nat :| ComesFrom(ms[1..], fault, e, i) {
        ComesFromInside(ms, fault, e, i);
      }
      if i: nat :| ComesFrom(ms, fault, e, i) && i > 0 {
        ComesFromInside(ms, fault, e, i - 1);
      }
    }
  }

  /** Once an exception is suppressed, the middlewares outside see none, unless one of them raises on its own. */
  lemma {:induction false} QuietOutside(ms: seq<Middleware>, fault: Option<Error>, i: nat, j: nat)
    requires j <= i <= |ms| && Left(ms[i..], fault).None?
    requires forall h :: j <= h < i ==> !ms[h].leave(None).Raise?
    ensures Left(ms[j..], fault).None?
    decreases i - j
  {
    if j < i {
      QuietOutside(ms, fault, i, j + 1);
      assert ms[j..][0] == ms[j] && ms[j..][1..] == ms[j + 1..];
    }
  }

  /** Whatever the middlewares do, `process_msg` returns only what the work returned. */
  lemma {:induction false} ReturnsOnlyTheWork(ms: seq<Middleware>, work: Outcome<Reply>)
    ensures var out := Bracket(ms, work, Raised(UNREACHABLE));
      out.Done? ==> out == work && forall e, i: nat :: !ComesFrom(Entered(ms), None, e, i)
  {
    if Bracket(ms, work, Raised(UNREACHABLE)).Done? {
      forall e, i: nat ensures !ComesFrom(Entered(ms), None, e, i) {
        LeftIff(Entered(ms), None, e);
      }
    }
  }

  // ----- which scope is outermost -----

  lemma {:induction false} MarkingAppend(ms: seq<Middleware>, m: Middleware)
    requires Marking(ms) && Marking([m])
    ensures Marking(ms + [m])
  {
    if ms == [] {
      assert ms + [m] == [m];
    } else {
      assert (ms + [m])[1..] == ms[1..] + [m];
      MarkingAppend(ms[1..], m);
    }
  }

  lemma {:induction false} MarkingReverse(ms: seq<Middleware>)
    requires Marking(ms)
    ensures Marking(Reverse(ms))
  {
    if ms != [] {
      MarkingReverse(ms[1..]);
      assert [ms[0]][1..] == [];
      assert Marking([ms[0]]);
      MarkingAppend(Reverse(ms[1..]), ms[0]);
    }
  }

  lemma {:induction false} IdsReverse(ms: seq<Middleware>)
    ensures Ids(Reverse(ms)) == Reverse(Ids(ms))
  {
    var forth, back := Ids(Reverse(ms)), Reverse(Ids(ms));
    assert |forth| == |back|;
    forall i | 0 <= i < |forth| ensures forth[i] == back[i] {
      assert Reverse(ms)[i] == ms[|ms| - 1 - i];
    }
  }

  /**
   * The same middlewares meet a message in opposite orders: `process_msg` puts the last
   * one outermost, a subscriber and a publisher the first one.
   */
  lemma {:induction false} OppositeOrders(ms: seq<Middleware>, core: Message -> Outcome<Reply>, x: Message,
                                          send: Command -> Outcome<Option<Raw>>, c: Command)
    requires Marking(ms)
    ensures Consume(Nest(Reverse(ms)), core, x) == core(x.(marks := x.marks + Reverse(Ids(ms))))
    ensures Consume(Nest(ms), core, x) == core(x.(marks := x.marks + Ids(ms)))
    ensures Publish(Nest(ms), send, c) == send(c.(marks := c.marks + Ids(ms)))
  {
    MarkingReverse(ms);
    ConsumeOrder(Reverse(ms), core, x);
    IdsReverse(ms);
    ConsumeOrder(ms, core, x);
    PublishOrder(ms, send, c);
  }

  // ----- which handler serves -----

  /** The first handler whose filter does not decline decides: it serves, or its error ends the search. */
  lemma {:induction false} FirstSuitable(items: seq<HandlerItem>, call: Call, raw: Raw, k: nat)
    requires k <= |items| && forall i :: 0 <= i < k ==> items[i].suitable(raw) == Done(None)
    requires k < |items| ==> items[k].suitable(raw) != Done(None)
    ensures Handle(items, call, raw)
         == if k == |items| then Raised(NOT_FOUND)
            else if items[k].suitable(raw).Raised? then Raised(items[k].suitable(raw).error)
            else Serve(items[k], call, items[k].suitable(raw).value.value)
    decreases k
  {
    if k > 0 {
      FirstSuitable(items[1..], call, raw, k - 1);
    }
  }
}
