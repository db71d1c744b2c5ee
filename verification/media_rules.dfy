/** The decision logic inside the three construction-site and continuation
    hooks of inject.js: when an object is a media descriptor, and how it is
    rewritten (`ttl_seconds = 10`, the bit of value 2 ORed into `flags`). */
module MediaRules {
  import opened Int32
  import opened JsValue

  const TTL_SECONDS: int := 10
  const TTL_KEY: string := "ttl_seconds"
  const FLAGS_KEY: string := "flags"
  const TYPE_KEY: string := "_"
  const FILE_KEY: string := "file"
  /** Needle of the `Object.assign` hook. */
  const UPLOADED_MARKER: string := "inputMediaUploaded"
  /** Needle of the `defineProperty` and `then` hooks. */
  const MEDIA_MARKER: string := "inputMedia"

  /** `flags` holds a number whose bit of value 2 is set: `(flags & 2) == 2`. */
  predicate HasTtlFlag(o: Object) {
    Get(o, FLAGS_KEY).Num? && Bit(ToInt32(Get(o, FLAGS_KEY).n), 1)
  }

  /** Every key other than `ttl_seconds` and `flags` reads the same in both. */
  ghost predicate SameOutsideTtl(o: Object, r: Object) {
    forall k :: k != TTL_KEY && k != FLAGS_KEY ==> Get(r, k) == Get(o, k)
  }

  /** The descriptor carries a file and no truthy time-to-live yet. */
  predicate AwaitsTtl(o: Object) {
    Truthy(Get(o, FILE_KEY)) && !Truthy(Get(o, TTL_KEY))
  }

  /** The mutation shared by the assign and then hooks:
      `o.ttl_seconds = 10; o.flags = (o.flags || 0) | 2`. */
  function InjectTtl(o: Object): (r: Object)
    ensures r.Keys == o.Keys + {TTL_KEY, FLAGS_KEY}
    ensures SameOutsideTtl(o, r)
    ensures Get(r, TTL_KEY) == Num(TTL_SECONDS)
    ensures HasTtlFlag(r)
    ensures Get(r, FLAGS_KEY) == Num(OrTwo(ToInt32Of(Get(o, FLAGS_KEY))))
  {
    var flags := Get(o, FLAGS_KEY);
    var base := if Truthy(flags) then flags else Num(0);
    o[TTL_KEY := Num(TTL_SECONDS)][FLAGS_KEY := Num(OrTwo(ToInt32Of(base)))]
  }

  /** The injected `flags` keeps every bit the old value had (read as a
      32-bit integer) and adds the bit of value 2. */
  lemma InjectTtlKeepsFlagBits(o: Object, k: nat)
    requires k < 32
    ensures Get(InjectTtl(o), FLAGS_KEY).Num?
    ensures var f := Get(InjectTtl(o), FLAGS_KEY).n;
            Bit(f, k) <==> (Bit(ToInt32Of(Get(o, FLAGS_KEY)), k) || k == 1)
  {
    OrTwoBitwise(ToInt32Of(Get(o, FLAGS_KEY)), k);
  }

  // ---------------------------------------------------------------------
  // Object.assign hook

  /** The object `Object.assign` returned is an uploaded-media descriptor
      awaiting a time-to-live. */
  predicate AssignMatches(o: Object) {
    var tag := Get(o, TYPE_KEY);
    && Truthy(tag) && tag.Str?
    && Contains(tag.s, UPLOADED_MARKER) && Truthy(Get(o, FILE_KEY))
    && !Truthy(Get(o, TTL_KEY))
  }

  /** The body of the `Object.assign` hook applied to the merged object. */
  function AssignRule(o: Object): (r: Object)
    ensures AssignMatches(o) ==> Get(r, TTL_KEY) == Num(TTL_SECONDS) && HasTtlFlag(r)
    ensures AssignMatches(o) ==> r.Keys == o.Keys + {TTL_KEY, FLAGS_KEY}
    ensures AssignMatches(o) ==> r == InjectTtl(o)
    ensures !AssignMatches(o) ==> r == o
    ensures SameOutsideTtl(o, r)
  {
    if AssignMatches(o) then InjectTtl(o) else o
  }

  /** The assign rule fires exactly on objects whose `_` is a string
      containing the marker, with a truthy `file` and a falsy `ttl_seconds`;
      the truthiness test on `_` adds nothing. */
  lemma AssignMatchesIff(o: Object)
    ensures AssignMatches(o) <==>
      (Get(o, TYPE_KEY).Str? && Contains(Get(o, TYPE_KEY).s, UPLOADED_MARKER) && AwaitsTtl(o))
  {
    if Get(o, TYPE_KEY).Str? && Contains(Get(o, TYPE_KEY).s, UPLOADED_MARKER) {
      ContainsNonEmpty(Get(o, TYPE_KEY).s, UPLOADED_MARKER);
    }
  }

  // ---------------------------------------------------------------------
  // Object.defineProperty hook

  /** The trigger of the `defineProperty` hook: a truthy target, the key `_`
      or `flags`, and a descriptor whose truthy `value` is a string holding
      the marker. */
  predicate DefineTriggers(obj: Value, prop: Value, descriptor: Value) {
    var value := GetProp(descriptor, "value");
    && Truthy(obj)
    && (prop == Str(TYPE_KEY) || prop == Str(FLAGS_KEY))
    && Truthy(descriptor) && Truthy(value)
    && value.Str? && Contains(value.s, MEDIA_MARKER)
  }

  /** The trigger in plain terms: the descriptor is an object whose `value`
      field is a marker-carrying string. */
  lemma DefineTriggersIff(obj: Value, prop: Value, descriptor: Value)
    ensures DefineTriggers(obj, prop, descriptor) <==>
      && Truthy(obj)
      && prop in {Str(TYPE_KEY), Str(FLAGS_KEY)}
      && descriptor.Obj? && "value" in descriptor.fields
      && descriptor.fields["value"].Str?
      && Contains(descriptor.fields["value"].s, MEDIA_MARKER)
  {
    var value := GetProp(descriptor, "value");
    if value.Str? && Contains(value.s, MEDIA_MARKER) {
      ContainsNonEmpty(value.s, MEDIA_MARKER);
    }
  }

  /** The deferred callback's `flags` update: a number gains the bit of value 2, any other
      value is replaced by 2. */
  function DeferredFlags(flags: Value): (r: int)
    ensures IsInt32(r) && Bit(r, 1)
    ensures !flags.Num? ==> r == 2
    ensures flags.Num? ==> forall k :: 0 <= k < 32 && k != 1 ==> (Bit(r, k) <==> Bit(ToInt32(flags.n), k))
  {
    if flags.Num? then
      var r := OrTwo(ToInt32(flags.n));
      assert forall k :: 0 <= k < 32 && k != 1 ==> (Bit(r, k) <==> Bit(ToInt32(flags.n), k)) by {
        forall k | 0 <= k < 32 && k != 1
          ensures Bit(r, k) <==> Bit(ToInt32(flags.n), k)
        {
          OrTwoBitwise(ToInt32(flags.n), k);
        }
      }
      r
    else
      2
  }

  /** The callback the `defineProperty` hook schedules, run on the target's
      state at the time the timer fires. */
  function DeferredInject(target: Value): (r: Value)
    ensures !(target.Obj? && AwaitsTtl(target.fields)) ==> r == target
    ensures target.Obj? ==> r.Obj? && SameOutsideTtl(target.fields, r.fields)
    ensures target.Obj? && AwaitsTtl(target.fields) ==>
      && Get(r.fields, TTL_KEY) == Num(TTL_SECONDS)
      && HasTtlFlag(r.fields)
      && r.fields.Keys == target.fields.Keys + {TTL_KEY, FLAGS_KEY}
      && r.fields[FLAGS_KEY] == Num(DeferredFlags(Get(target.fields, FLAGS_KEY)))
  {
    match target
    case Obj(o) =>
      if AwaitsTtl(o) then
        Obj(o[TTL_KEY := Num(TTL_SECONDS)][FLAGS_KEY := Num(DeferredFlags(Get(o, FLAGS_KEY)))])
      else
        target
    case _ => target
  }

  /** The deferred callback and the assign/then mutation agree whenever
      `flags` is a number or absent; they differ only on other values
      (`true` becomes 3 through `||`, but 2 in the deferred callback). */
  lemma DeferredAgreesWithInject(o: Object)
    requires AwaitsTtl(o)
    requires Get(o, FLAGS_KEY).Num? || Get(o, FLAGS_KEY) == Undefined
    ensures DeferredInject(Obj(o)) == Obj(InjectTtl(o))
  {
  }

  /** Concrete witness that the two flag updates differ on a boolean. */
  lemma DeferredDiffersOnBooleanFlags()
    ensures var o := map[FILE_KEY := Str("f"), FLAGS_KEY := Bool(true)];
            && Get(InjectTtl(o), FLAGS_KEY) == Num(3)
            && DeferredInject(Obj(o)) == Obj(o[TTL_KEY := Num(TTL_SECONDS)][FLAGS_KEY := Num(2)])
  {
    var o := map[FILE_KEY := Str("f"), FLAGS_KEY := Bool(true)];
    assert Bit(1, 0) && !Bit(1, 1);
    assert Bit(2, 1);
  }

  // ---------------------------------------------------------------------
  // Promise.prototype.then hook

  /** The inspection in the `then` wrapper, exactly as written: None when
      `value._.includes(...)` throws because `_` is a truthy value that is
      neither a string nor an array. */
  function ThenInspectAsWritten(v: Value): (r: Wrappers.Option<Value>)
    ensures r.Some? && r.value != v ==> v.Obj? && AwaitsTtl(v.fields)
    ensures r.None? <==> v.Obj? && Truthy(GetProp(v, TYPE_KEY))
                         && !(GetProp(v, TYPE_KEY).Str? || GetProp(v, TYPE_KEY).Arr?)
    ensures r.Some? && r.value != v ==> r.value == Obj(InjectTtl(v.fields))
    ensures r.Some? ==> (r.value != v <==>
      && v.Obj? && Truthy(GetProp(v, TYPE_KEY))
      && Includes(GetProp(v, TYPE_KEY), MEDIA_MARKER) == Wrappers.Some(true)
      && AwaitsTtl(v.fields))
  {
    var tag := GetProp(v, TYPE_KEY);
    // Only an object answers a `_` lookup, so `typeof value === 'object'`
    // and the truthiness tests reduce to v.Obj? and a truthy tag.
    if v.Obj? && Truthy(tag) then
      match Includes(tag, MEDIA_MARKER)
      case None => Wrappers.None
      case Some(found) =>
        if found && AwaitsTtl(v.fields) then Wrappers.Some(Obj(InjectTtl(v.fields)))
        else Wrappers.Some(v)
    else
      Wrappers.Some(v)
  }

  /** The continuation-tap predicate with the string test the assign hook
      already makes: an object whose `_` is a string holding the marker,
      with a file and no truthy time-to-live. */
  predicate ThenMatches(v: Value) {
    var tag := GetProp(v, TYPE_KEY);
    v.Obj? && tag.Str? && Contains(tag.s, MEDIA_MARKER) && AwaitsTtl(v.fields)
  }

  /** The `then` inspection with the string guard restored; it never throws. */
  function ThenRule(v: Value): (r: Value)
    ensures ThenMatches(v) ==> r.Obj? && Get(r.fields, TTL_KEY) == Num(TTL_SECONDS) && HasTtlFlag(r.fields)
    ensures ThenMatches(v) ==> r.fields.Keys == v.fields.Keys + {TTL_KEY, FLAGS_KEY}
    ensures ThenMatches(v) ==> SameOutsideTtl(v.fields, r.fields)
    ensures ThenMatches(v) ==> r == Obj(InjectTtl(v.fields))
    ensures !ThenMatches(v) ==> r == v
  {
    if ThenMatches(v) then Obj(InjectTtl(v.fields)) else v
  }

  /** Wherever `_` is a string or falsy, the written inspection neither
      throws nor differs from ThenRule. */
  lemma ThenInspectAgrees(v: Value)
    requires GetProp(v, TYPE_KEY).Str? || !Truthy(GetProp(v, TYPE_KEY))
    ensures ThenInspectAsWritten(v) == Wrappers.Some(ThenRule(v))
  {
  }

  /** Where the written inspection and ThenRule part without a throw: an
      array `_` holding the marker is searched by `Array.prototype.includes`
      and rewritten as written, while ThenRule, which searches strings only,
      leaves it alone. */
  lemma ArrayTagRewrittenOnlyAsWritten()
    ensures var v := Obj(map[TYPE_KEY := Arr([Str(MEDIA_MARKER)]), FILE_KEY := Str("f")]);
            && ThenInspectAsWritten(v) == Wrappers.Some(Obj(InjectTtl(v.fields)))
            && ThenRule(v) == v
  {
    var v := Obj(map[TYPE_KEY := Arr([Str(MEDIA_MARKER)]), FILE_KEY := Str("f")]);
    assert GetProp(v, TYPE_KEY).elems[0] == Str(MEDIA_MARKER);
    assert Get(v.fields, TTL_KEY) == Undefined;
  }

  /** Every object the assign hook rewrites, the then hook rewrites the same
      way: "inputMedia" is a prefix of "inputMediaUploaded". */
  lemma AssignMatchImpliesThenMatch(o: Object)
    requires AssignMatches(o)
    ensures ThenMatches(Obj(o))
    ensures ThenRule(Obj(o)) == Obj(AssignRule(o))
  {
    ContainsPrefix(Get(o, TYPE_KEY).s, UPLOADED_MARKER, MEDIA_MARKER);
  }

  // ---------------------------------------------------------------------
  // Properties shared by the three rules

  /** A descriptor whose `ttl_seconds` is already truthy is left untouched by
      every rule. */
  lemma TruthyTtlUntouched(o: Object)
    requires Truthy(Get(o, TTL_KEY))
    ensures AssignRule(o) == o
    ensures DeferredInject(Obj(o)) == Obj(o)
    ensures ThenRule(Obj(o)) == Obj(o)
    ensures ThenInspectAsWritten(Obj(o)) in {Wrappers.None, Wrappers.Some(Obj(o))}
  {
    assert Get(InjectTtl(o), TTL_KEY) == Num(TTL_SECONDS);
  }

  /** Each rule is idempotent: a second application changes nothing. This
      holds of the `then` inspection as written as well as of ThenRule. */
  lemma RulesIdempotent(o: Object, v: Value)
    ensures AssignRule(AssignRule(o)) == AssignRule(o)
    ensures DeferredInject(DeferredInject(v)) == DeferredInject(v)
    ensures ThenRule(ThenRule(v)) == ThenRule(v)
    ensures ThenInspectAsWritten(v).Some? ==>
      ThenInspectAsWritten(ThenInspectAsWritten(v).value) == ThenInspectAsWritten(v)
  {
    if AssignMatches(o) {
      TruthyTtlUntouched(AssignRule(o));
    }
    if v.Obj? && AwaitsTtl(v.fields) {
      TruthyTtlUntouched(DeferredInject(v).fields);
    }
    if ThenMatches(v) {
      TruthyTtlUntouched(ThenRule(v).fields);
    }
  }
}
