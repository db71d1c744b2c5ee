/** The `Promise.prototype.then` wrapper of inject.js, over a small model of
    promise reactions: handlers are host functions, non-callable values, or
    the wrapper closures themselves. Both the wrapper as written and a
    corrected wrapper are modelled; the corrected one is transparent for
    every value the media predicate rejects. */
module ThenHook {
  import opened JsValue
  import opened MediaRules
  import Wrappers

  /** How a reaction settles the promise `then` returned. */
  datatype Settlement = Fulfilled(value: Value) | Rejected(reason: Value)

  /** The TypeError raised by calling or reading a method of a value that
      has none. */
  const TYPE_ERROR: Value := Obj(map["name" := Str("TypeError")])

  /** An argument of `then`. `Host(id)` is a function of the host
      application; `NotCallable(v)` any other value, `undefined` included;
      the last two are the closures the hook builds around `inner`. */
  datatype Handler =
    | Host(id: nat)
    | NotCallable(v: Value)
    | MediaWrapperAsWritten(inner: Handler)
    | MediaWrapper(inner: Handler)

  predicate Callable(h: Handler) {
    !h.NotCallable?
  }

  /** ToBoolean of a handler: functions are always truthy. */
  predicate HandlerTruthy(h: Handler) {
    match h
    case NotCallable(v) => Truthy(v)
    case _ => true
  }

  /** `h.call(this, v)`. `host(id, v)` is the settlement a host function
      produces (a throw becomes a rejection). */
  function Call(h: Handler, v: Value, host: (nat, Value) -> Settlement): (r: Settlement)
    ensures h.NotCallable? ==> r == Rejected(TYPE_ERROR)
    decreases h
  {
    match h
    case Host(id) => host(id, v)
    case NotCallable(_) => Rejected(TYPE_ERROR)
    case MediaWrapperAsWritten(inner) =>
      (match ThenInspectAsWritten(v)
       case None => Rejected(TYPE_ERROR)
       case Some(v') => Call(inner, v', host))
    case MediaWrapper(inner) => Call(inner, ThenRule(v), host)
  }

  /** The fulfilment reaction of a promise (sections 27.2.5.4 and 27.2.2.1
      of ECMA-262): a handler that is not callable is replaced by the
      identity, a callable one is called with the value. */
  function OnFulfilled(h: Handler, v: Value, host: (nat, Value) -> Settlement): (r: Settlement)
    ensures !Callable(h) ==> r == Fulfilled(v)
    ensures Callable(h) ==> r == Call(h, v, host)
  {
    if Callable(h) then Call(h, v, host) else Fulfilled(v)
  }

  /** The handlers the wrapper as written hands to the original `then`:
      `onFulfilled && function (value) {...}` or else `onFulfilled`, and
      `onRejected` untouched. */
  function ThenHookAsWritten(onFulfilled: Handler, onRejected: Handler): (r: (Handler, Handler))
    ensures r.1 == onRejected
    ensures !HandlerTruthy(onFulfilled) ==> r.0 == onFulfilled
    ensures HandlerTruthy(onFulfilled) ==> r.0.MediaWrapperAsWritten? && r.0.inner == onFulfilled
  {
    var wrapped := if HandlerTruthy(onFulfilled) then MediaWrapperAsWritten(onFulfilled) else onFulfilled;
    (wrapped, onRejected)
  }

  /** The wrapper with both guards in place: only a callable `onFulfilled`
      is wrapped, and only a string `_` is searched for the marker. */
  function ThenHook(onFulfilled: Handler, onRejected: Handler): (r: (Handler, Handler))
    ensures r.1 == onRejected
    ensures !Callable(onFulfilled) ==> r.0 == onFulfilled
    ensures Callable(onFulfilled) ==> r.0.MediaWrapper? && r.0.inner == onFulfilled
  {
    var wrapped := if Callable(onFulfilled) then MediaWrapper(onFulfilled) else onFulfilled;
    (wrapped, onRejected)
  }

  /** The corrected wrapper is transparent: the host's continuation sees
      the value the media rule produced, which is the value itself unless
      it is a media descriptor awaiting a time-to-live; a non-callable
      handler keeps its native meaning. */
  lemma ThenHookTransparent(onFulfilled: Handler, onRejected: Handler, v: Value, host: (nat, Value) -> Settlement)
    ensures Callable(onFulfilled) ==>
      OnFulfilled(ThenHook(onFulfilled, onRejected).0, v, host) == Call(onFulfilled, ThenRule(v), host)
    ensures !ThenMatches(v) ==>
      OnFulfilled(ThenHook(onFulfilled, onRejected).0, v, host) == OnFulfilled(onFulfilled, v, host)
    ensures ThenHook(onFulfilled, onRejected).1 == onRejected
  {
  }

  /** For a callable handler and a value whose `_` is a string or falsy,
      the wrapper as written and the corrected one settle alike. */
  lemma AsWrittenAgreesOnStringTags(onFulfilled: Handler, onRejected: Handler, v: Value, host: (nat, Value) -> Settlement)
    requires Callable(onFulfilled)
    requires GetProp(v, TYPE_KEY).Str? || !Truthy(GetProp(v, TYPE_KEY))
    ensures OnFulfilled(ThenHookAsWritten(onFulfilled, onRejected).0, v, host)
         == OnFulfilled(ThenHook(onFulfilled, onRejected).0, v, host)
  {
    ThenInspectAgrees(v);
  }

  /** Discrepancy of the wrapper as written: a truthy handler that is not a
      function, which the native `then` ignores, is wrapped, and the wrapper
      then fails on `onFulfilled.call`, rejecting the promise. */
  lemma NonCallableHandlerRejected(v: Value, host: (nat, Value) -> Settlement)
    ensures OnFulfilled(NotCallable(Num(1)), v, host) == Fulfilled(v)
    ensures OnFulfilled(ThenHookAsWritten(NotCallable(Num(1)), NotCallable(Undefined)).0, v, host)
         == Rejected(TYPE_ERROR)
  {
    var h := ThenHookAsWritten(NotCallable(Num(1)), NotCallable(Undefined)).0;
    assert h == MediaWrapperAsWritten(NotCallable(Num(1)));
  }

  /** Discrepancy of the wrapper as written: an object whose `_` is a truthy
      number makes `value._.includes` throw, so the host's continuation
      never runs and the promise rejects. */
  lemma NonStringTagRejected(host: (nat, Value) -> Settlement)
    ensures var v := Obj(map[TYPE_KEY := Num(1)]);
            && OnFulfilled(Host(0), v, host) == host(0, v)
            && OnFulfilled(ThenHookAsWritten(Host(0), NotCallable(Undefined)).0, v, host) == Rejected(TYPE_ERROR)
  {
    var v := Obj(map[TYPE_KEY := Num(1)]);
    assert GetProp(v, TYPE_KEY) == Num(1);
    assert ThenInspectAsWritten(v) == Wrappers.None;
  }

  /** `then` after `depth` installs of the wrapper as written: each wrapper
      wraps the handler and passes it to the `then` installed before it. */
  function ThenLayersAsWritten(depth: nat, onFulfilled: Handler): Handler
    decreases depth
  {
    if depth == 0 then onFulfilled
    else ThenLayersAsWritten(depth - 1, ThenHookAsWritten(onFulfilled, NotCallable(Undefined)).0)
  }

  /** However many installs of the wrapper as written are stacked, a
      reaction settles as it does under a single wrapper: the inspection
      either throws at the outermost layer or yields a value every inner
      layer passes on unchanged. */
  lemma {:induction false} ThenLayersAsWrittenCollapse(depth: nat, onFulfilled: Handler, v: Value, host: (nat, Value) -> Settlement)
    requires depth >= 1
    ensures OnFulfilled(ThenLayersAsWritten(depth, onFulfilled), v, host)
         == OnFulfilled(ThenHookAsWritten(onFulfilled, NotCallable(Undefined)).0, v, host)
    decreases depth
  {
    if depth > 1 {
      var w := ThenHookAsWritten(onFulfilled, NotCallable(Undefined)).0;
      ThenLayersAsWrittenCollapse(depth - 1, w, v, host);
      if HandlerTruthy(onFulfilled) {
        RulesIdempotent(map[], v);
        match ThenInspectAsWritten(v)
        case None =>
        case Some(v') =>
          assert Call(w, v', host) == Call(onFulfilled, v', host);
      } else {
        assert w == onFulfilled;
      }
    }
  }

  /** `then` after `depth` installs: each wrapper wraps the handler and
      passes it to the `then` installed before it. */
  function ThenLayers(depth: nat, onFulfilled: Handler): Handler
    decreases depth
  {
    if depth == 0 then onFulfilled
    else ThenLayers(depth - 1, ThenHook(onFulfilled, NotCallable(Undefined)).0)
  }

  /** However many installs are stacked, the host's continuation sees the
      value the media rule produced once. */
  lemma {:induction false} ThenLayersCollapse(depth: nat, onFulfilled: Handler, v: Value, host: (nat, Value) -> Settlement)
    requires depth >= 1
    ensures OnFulfilled(ThenLayers(depth, onFulfilled), v, host)
         == OnFulfilled(ThenHook(onFulfilled, NotCallable(Undefined)).0, v, host)
    decreases depth
  {
    if depth > 1 {
      var w := ThenHook(onFulfilled, NotCallable(Undefined)).0;
      ThenLayersCollapse(depth - 1, w, v, host);
      if Callable(onFulfilled) {
        RulesIdempotent(map[], v);
        assert Call(w, ThenRule(v), host) == Call(onFulfilled, ThenRule(ThenRule(v)), host);
      } else {
        assert w == onFulfilled;
      }
    }
  }
}
