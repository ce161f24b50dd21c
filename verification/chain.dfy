/** Chain of responsibility over a three-field record
    (week4/chain_of_responsibility/chainofresponsibility.py). A get or set
    event travels along a linked list of handlers until one serves it. The
    Python handlers mutate the record in place; here `Handle` returns the
    reply together with the record as it stands afterwards. */
module Chain {
  import opened Wrappers

  /** `SomeObject`: one field per supported Python type. */
  datatype SomeObject = SomeObject(integerField: int, floatField: real, stringField: string)

  /** A freshly constructed `SomeObject`. */
  const FreshObject: SomeObject := SomeObject(0, 0.0, "")

  /** The Python type objects an `EventGet` can name; `OtherType` stands for
      every type none of the handlers serves. */
  datatype PyType = IntType | FloatType | StrType | OtherType

  /** A Python value carried by `EventSet`, classified by its type. */
  datatype Value = IntValue(i: int) | FloatValue(f: real) | StrValue(s: string) | OtherValue

  function TypeOf(v: Value): (r: PyType) {
    match v
    case IntValue(_) => IntType
    case FloatValue(_) => FloatType
    case StrValue(_) => StrType
    case OtherValue => OtherType
  }

  datatype Event = EventGet(t: PyType) | EventSet(value: Value)

  /** Which `handle` a handler runs: the base `NullHandler` or one of the typed ones. */
  datatype Kind = Null | IntKind | FloatKind | StrKind

  /** A handler and the successor given to its constructor (`None` by default). */
  datatype Handler = Handler(kind: Kind, successor: Option<Handler>)

  /** What `handle` returns (a field value or `None`) and the record afterwards. */
  datatype Reply = Reply(result: Option<Value>, obj: SomeObject)

  /** A typed handler that cannot serve the event calls `handle` on its
      successor; when that is `None` Python raises `AttributeError`. */
  datatype ChainError = MissingSuccessor

  /** The type a handler kind is responsible for. */
  function Serviced(k: Kind): (r: PyType) {
    match k
    case Null => OtherType
    case IntKind => IntType
    case FloatKind => FloatType
    case StrKind => StrType
  }

  /** The field of the record that holds values of type `t`. */
  function Field(obj: SomeObject, t: PyType): (r: Option<Value>) {
    match t
    case IntType => Some(IntValue(obj.integerField))
    case FloatType => Some(FloatValue(obj.floatField))
    case StrType => Some(StrValue(obj.stringField))
    case OtherType => None
  }

  /** The first two branches of a typed handler: a get of its type, or a set
      with a value of its type. `NullHandler` serves nothing itself. */
  predicate Serves(k: Kind, e: Event) {
    k != Null &&
    match e
    case EventGet(t) => t == Serviced(k)
    case EventSet(v) => TypeOf(v) == Serviced(k)
  }

  /** What a handler does with an event it serves: a get returns the field
      and leaves the record alone; a set writes exactly that one field and
      returns `None`. */
  function Serve(k: Kind, obj: SomeObject, e: Event): (r: Reply)
    requires Serves(k, e)
    ensures e.EventGet? ==> r.obj == obj && r.result == Field(obj, e.t) && r.result.Some?
    ensures e.EventSet? ==> r.result == None && Field(r.obj, TypeOf(e.value)) == Some(e.value)
    ensures e.EventSet? ==> forall t :: t != TypeOf(e.value) ==> Field(r.obj, t) == Field(obj, t)
  {
    match e
    case EventGet(_) => Reply(Field(obj, Serviced(k)), obj)
    case EventSet(v) =>
      match v
      case IntValue(i) => Reply(None, obj.(integerField := i))
      case FloatValue(f) => Reply(None, obj.(floatField := f))
      case StrValue(s) => Reply(None, obj.(stringField := s))
  }

  /** `handler.handle(obj, event)`. */
  function Handle(h: Handler, obj: SomeObject, e: Event): (r: Result<Reply, ChainError>)
    ensures r.Success? && e.EventGet? ==> r.value.obj == obj
    ensures r.Success? && e.EventSet? ==> r.value.result == None
    ensures r.Success? && r.value.result.Some? && e.EventGet? ==> r.value.result == Field(obj, e.t)
    decreases h
  {
    if Serves(h.kind, e) then Success(Serve(h.kind, obj, e))
    else
      match h.successor
      case Some(next) => Handle(next, obj, e)
      case None => if h.kind == Null then Success(Reply(None, obj)) else Failure(MissingSuccessor)
  }

  // ---------------------------------------------------------------------------
  // Reference reading: the chain as the list of its handlers' kinds, and the
  // outcome as that of the first handler in the list that serves the event.

  /** The kinds of the handlers from `h` to the end of the chain. */
  function Kinds(h: Handler): (ks: seq<Kind>)
    ensures |ks| >= 1 && ks[0] == h.kind
    decreases h
  {
    match h.successor
    case None => [h.kind]
    case Some(next) => [h.kind] + Kinds(next)
  }

  /** The index of the first kind that serves `e`, or `|ks|` when none does. */
  function FirstServing(ks: seq<Kind>, e: Event): (i: nat)
    ensures i <= |ks|
    ensures forall j :: 0 <= j < i ==> !Serves(ks[j], e)
    ensures i < |ks| ==> Serves(ks[i], e)
  {
    if |ks| == 0 then 0
    else if Serves(ks[0], e) then 0
    else 1 + FirstServing(ks[1..], e)
  }

  /** The outcome of routing `e` along the handler kinds `ks`: the first
      serving handler's reply; if none serves, `None` when the last handler
      is a `NullHandler` and a crash otherwise. */
  function RouteList(ks: seq<Kind>, obj: SomeObject, e: Event): (r: Result<Reply, ChainError>)
    requires |ks| >= 1
  {
    var i := FirstServing(ks, e);
    if i < |ks| then Success(Serve(ks[i], obj, e))
    else if ks[|ks| - 1] == Null then Success(Reply(None, obj))
    else Failure(MissingSuccessor)
  }

  /** Handling walks the chain exactly as the reference reading says: every
      handler that does not serve the event forwards the same record and
      event, and the outcome is decided by the first one that does. */
  lemma {:induction false} HandleIsFirstServing(h: Handler, obj: SomeObject, e: Event)
    ensures Handle(h, obj, e) == RouteList(Kinds(h), obj, e)
    decreases h
  {
    match h.successor
    case None =>
    case Some(next) =>
      HandleIsFirstServing(next, obj, e);
      if !Serves(h.kind, e) {
        RouteSkips(h.kind, Kinds(next), obj, e);
      }
  }

  /** A kind that does not serve the event leaves the routing to the rest of
      the list. */
  lemma RouteSkips(k: Kind, ks: seq<Kind>, obj: SomeObject, e: Event)
    requires |ks| >= 1 && !Serves(k, e)
    ensures RouteList([k] + ks, obj, e) == RouteList(ks, obj, e)
  {
    var all := [k] + ks;
    assert all[1..] == ks;
    assert FirstServing(all, e) == 1 + FirstServing(ks, e);
    assert all[|all| - 1] == ks[|ks| - 1];
  }

  /** A handler that does not serve the event hands the identical record and
      event to its successor. */
  lemma Forwards(h: Handler, obj: SomeObject, e: Event)
    requires !Serves(h.kind, e) && h.successor.Some?
    ensures Handle(h, obj, e) == Handle(h.successor.value, obj, e)
    ensures Kinds(h) == [h.kind] + Kinds(h.successor.value)
  {
  }

  /** A lone `NullHandler()` answers every event with `None` and touches nothing. */
  lemma LoneNullHandler(obj: SomeObject, e: Event)
    ensures Handle(Handler(Null, None), obj, e) == Success(Reply(None, obj))
  {
  }

  /** A get and a set of the same type are served by the same handler. */
  lemma SameHandlerServes(k: Kind, v: Value)
    ensures Serves(k, EventSet(v)) <==> Serves(k, EventGet(TypeOf(v)))
  {
  }

  /** The first serving index depends only on which kinds serve. */
  lemma {:induction false} FirstServingAgrees(ks: seq<Kind>, e1: Event, e2: Event)
    requires forall k :: Serves(k, e1) <==> Serves(k, e2)
    ensures FirstServing(ks, e1) == FirstServing(ks, e2)
  {
    if |ks| > 0 && !Serves(ks[0], e1) {
      FirstServingAgrees(ks[1..], e1, e2);
    }
  }

  /** A set followed by a get of the same type, on any chain that holds a
      handler for that type, returns the value just set; the set reply
      itself is `None`, and the other fields keep their values. */
  lemma SetThenGet(h: Handler, obj: SomeObject, v: Value)
    requires TypeOf(v) != OtherType
    requires exists j :: 0 <= j < |Kinds(h)| && Serviced(Kinds(h)[j]) == TypeOf(v) && Kinds(h)[j] != Null
    ensures Handle(h, obj, EventSet(v)).Success?
    ensures Handle(h, obj, EventSet(v)).value.result == None
    ensures var o := Handle(h, obj, EventSet(v)).value.obj;
      Handle(h, o, EventGet(TypeOf(v))) == Success(Reply(Some(v), o))
    ensures var o := Handle(h, obj, EventSet(v)).value.obj;
      forall t :: t != TypeOf(v) ==> Field(o, t) == Field(obj, t)
  {
    var ks := Kinds(h);
    var j :| 0 <= j < |ks| && Serviced(ks[j]) == TypeOf(v) && ks[j] != Null;
    assert Serves(ks[j], EventSet(v));
    HandleIsFirstServing(h, obj, EventSet(v));
    var o := Handle(h, obj, EventSet(v)).value.obj;
    HandleIsFirstServing(h, o, EventGet(TypeOf(v)));
    forall k ensures Serves(k, EventSet(v)) <==> Serves(k, EventGet(TypeOf(v))) {
      SameHandlerServes(k, v);
    }
    FirstServingAgrees(ks, EventSet(v), EventGet(TypeOf(v)));
  }

  /** `NullHandler()`, `StrHandler(NullHandler())`, and so on up to the
      module's demonstration chain `IntHandler(FloatHandler(StrHandler(NullHandler())))`. */
  const NullChain: Handler := Handler(Null, None)
  const StrChain: Handler := Handler(StrKind, Some(NullChain))
  const FloatChain: Handler := Handler(FloatKind, Some(StrChain))
  const DemoChain: Handler := Handler(IntKind, Some(FloatChain))

  /** The type an event is about. */
  function EventType(e: Event): (r: PyType) {
    match e
    case EventGet(t) => t
    case EventSet(v) => TypeOf(v)
  }

  /** The typed handler kind for a supported type. */
  function KindFor(t: PyType): (k: Kind)
    requires t != OtherType
    ensures Serviced(k) == t && k != Null
  {
    match t
    case IntType => IntKind
    case FloatType => FloatKind
    case StrType => StrKind
  }

  /** The demonstration chain never crashes: an event about int, float or
      str is served by that type's handler, and anything else falls through
      to the `NullHandler` and is answered with `None`. */
  lemma DemoChainServes(obj: SomeObject, e: Event)
    ensures EventType(e) != OtherType ==>
      Serves(KindFor(EventType(e)), e) &&
      Handle(DemoChain, obj, e) == Success(Serve(KindFor(EventType(e)), obj, e))
    ensures EventType(e) == OtherType ==> Handle(DemoChain, obj, e) == Success(Reply(None, obj))
  {
    assert Handle(NullChain, obj, e) == Success(Reply(None, obj));
    if EventType(e) != StrType {
      assert Handle(StrChain, obj, e) == Handle(NullChain, obj, e);
    }
    if EventType(e) != FloatType {
      assert Handle(FloatChain, obj, e) == Handle(StrChain, obj, e);
    }
    if EventType(e) != IntType {
      assert Handle(DemoChain, obj, e) == Handle(FloatChain, obj, e);
    }
  }

  /** The module's demonstration, call by call on one record: three gets,
      then sets of 100, 0.5 and "new text" interleaved with gets that see
      the new values. Every set answers `None`. */
  lemma DemoRun(obj: SomeObject)
    requires obj == SomeObject(42, 3.14, "some text")
    ensures Handle(DemoChain, obj, EventGet(IntType)) == Success(Reply(Some(IntValue(42)), obj))
    ensures Handle(DemoChain, obj, EventGet(FloatType)) == Success(Reply(Some(FloatValue(3.14)), obj))
    ensures Handle(DemoChain, obj, EventGet(StrType)) == Success(Reply(Some(StrValue("some text")), obj))
    ensures Handle(DemoChain, obj, EventSet(IntValue(100))) ==
      Success(Reply(None, SomeObject(100, 3.14, "some text")))
    ensures Handle(DemoChain, SomeObject(100, 3.14, "some text"), EventSet(FloatValue(0.5))) ==
      Success(Reply(None, SomeObject(100, 0.5, "some text")))
    ensures Handle(DemoChain, SomeObject(100, 0.5, "some text"), EventGet(FloatType)) ==
      Success(Reply(Some(FloatValue(0.5)), SomeObject(100, 0.5, "some text")))
    ensures Handle(DemoChain, SomeObject(100, 0.5, "some text"), EventSet(StrValue("new text"))) ==
      Success(Reply(None, SomeObject(100, 0.5, "new text")))
    ensures Handle(DemoChain, SomeObject(100, 0.5, "new text"), EventGet(StrType)) ==
      Success(Reply(Some(StrValue("new text")), SomeObject(100, 0.5, "new text")))
  {
    DemoChainServes(obj, EventGet(IntType));
    DemoChainServes(obj, EventGet(FloatType));
    DemoChainServes(obj, EventGet(StrType));
    DemoChainServes(obj, EventSet(IntValue(100)));
    DemoChainServes(SomeObject(100, 3.14, "some text"), EventSet(FloatValue(0.5)));
    DemoChainServes(SomeObject(100, 0.5, "some text"), EventGet(FloatType));
    DemoChainServes(SomeObject(100, 0.5, "some text"), EventSet(StrValue("new text")));
    DemoChainServes(SomeObject(100, 0.5, "new text"), EventGet(StrType));
  }

  /** On a fresh record the demonstration chain reads back 0, 0.0 and "". */
  lemma FreshObjectReads(t: PyType)
    requires t != OtherType
    ensures Handle(DemoChain, FreshObject, EventGet(t)) ==
      Success(Reply(Some(match t
                         case IntType => IntValue(0)
                         case FloatType => FloatValue(0.0)
                         case _ => StrValue("")), FreshObject))
  {
    DemoChainServes(FreshObject, EventGet(t));
  }
}
