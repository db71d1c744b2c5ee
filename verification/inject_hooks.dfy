/** The `Object.assign` and `Object.defineProperty` wrappers that each
    install of inject.js puts in place, including the effect of several
    installs stacked on top of one another. */
module InjectHooks {
  import opened Wrappers
  import opened JsValue
  import opened MediaRules

  // ---------------------------------------------------------------------
  // Object.assign

  /** Some source defines `k`. */
  predicate InSomeSource(sources: seq<Object>, k: string) {
    exists i :: 0 <= i < |sources| && k in sources[i]
  }

  /** `sources[i]` is the last source that defines `k`. */
  predicate LastDefinedAt(sources: seq<Object>, k: string, i: int) {
    && 0 <= i < |sources|
    && k in sources[i]
    && forall j :: i < j < |sources| ==> k !in sources[j]
  }

  /** `r` is what `Object.assign(target, ...sources)` leaves in `target`:
      the keys of the target and of every source; the target's value where
      no source defines the key; otherwise the value of the last source
      that defines it. */
  ghost predicate Merged(target: Object, sources: seq<Object>, r: Object) {
    && (forall k :: k in r <==> k in target || InSomeSource(sources, k))
    && (forall k :: k in target && !InSomeSource(sources, k) ==> r[k] == target[k])
    && (forall i, k :: LastDefinedAt(sources, k, i) ==> k in r && r[k] == sources[i][k])
  }

  /** The native `Object.assign(target, ...sources)` on plain objects: the
      own fields of each source are copied in order, a later source
      overriding an earlier one. */
  function Merge(target: Object, sources: seq<Object>): (r: Object)
    ensures Merged(target, sources, r)
    ensures |sources| > 0 ==> forall k :: k in sources[|sources| - 1] ==> k in r && r[k] == sources[|sources| - 1][k]
    decreases |sources|
  {
    if |sources| == 0 then target
    else
      var m := Merge(target, sources[..|sources| - 1]);
      MergeStep(target, sources, m);
      m + sources[|sources| - 1]
  }

  /** Copying the last source over the merge of the others merges them all. */
  lemma MergeStep(target: Object, sources: seq<Object>, m: Object)
    requires |sources| > 0
    requires Merged(target, sources[..|sources| - 1], m)
    ensures Merged(target, sources, m + sources[|sources| - 1])
  {
    InSomeSourceSplit(sources);
    LastDefinedInInit(sources);
  }

  /** A key is in some source exactly when it is in some source but the last,
      or in the last. */
  lemma InSomeSourceSplit(sources: seq<Object>)
    requires |sources| > 0
    ensures forall k :: InSomeSource(sources, k) <==>
      InSomeSource(sources[..|sources| - 1], k) || k in sources[|sources| - 1]
  {
    var init := sources[..|sources| - 1];
    forall k | InSomeSource(sources, k)
      ensures InSomeSource(init, k) || k in sources[|sources| - 1]
    {
      var i :| 0 <= i < |sources| && k in sources[i];
      if i < |sources| - 1 {
        assert k in init[i];
      }
    }
    forall k | InSomeSource(init, k)
      ensures InSomeSource(sources, k)
    {
      var i :| 0 <= i < |init| && k in init[i];
      assert k in sources[i];
    }
  }

  /** A last definition before the final source stays the last one once the
      final source is dropped. */
  lemma LastDefinedInInit(sources: seq<Object>)
    requires |sources| > 0
    ensures forall i, k :: LastDefinedAt(sources, k, i) && i < |sources| - 1 ==>
      LastDefinedAt(sources[..|sources| - 1], k, i)
  {
    var init := sources[..|sources| - 1];
    forall i, k | LastDefinedAt(sources, k, i) && i < |init|
      ensures LastDefinedAt(init, k, i)
    {
      assert init[i] == sources[i];
      forall j | i < j < |init| ensures k !in init[j] {
        assert init[j] == sources[j];
      }
    }
  }

  /** The installed `Object.assign` wrapper over the native one: merge, then
      apply the media rule to the object the merge returned. */
  function AssignHook(target: Object, sources: seq<Object>): (r: Object)
    ensures SameOutsideTtl(Merge(target, sources), r)
    ensures AssignMatches(Merge(target, sources)) ==>
      Get(r, TTL_KEY) == Num(TTL_SECONDS) && HasTtlFlag(r)
    ensures AssignMatches(Merge(target, sources)) ==> r == InjectTtl(Merge(target, sources))
    ensures !AssignMatches(Merge(target, sources)) ==> r == Merge(target, sources)
  {
    AssignRule(Merge(target, sources))
  }

  /** `Object.assign` after `depth` installs: every wrapper calls the one
      installed before it and then applies the rule to the result. */
  function AssignLayers(depth: nat, target: Object, sources: seq<Object>): Object
    decreases depth
  {
    if depth == 0 then Merge(target, sources)
    else AssignRule(AssignLayers(depth - 1, target, sources))
  }

  /** However many installs are stacked, `Object.assign` behaves like a
      single wrapper over the native function. */
  lemma {:induction false} AssignLayersCollapse(depth: nat, target: Object, sources: seq<Object>)
    requires depth >= 1
    ensures AssignLayers(depth, target, sources) == AssignHook(target, sources)
    decreases depth
  {
    if depth > 1 {
      AssignLayersCollapse(depth - 1, target, sources);
      RulesIdempotent(Merge(target, sources), Undefined);
    }
  }

  // ---------------------------------------------------------------------
  // Object.defineProperty

  /** What one call of the `defineProperty` wrapper does: the arguments it
      hands to the original function, the target of the callback it
      schedules (if any), and the value it returns. */
  datatype DefineCall<R> = DefineCall(forwarded: (Value, Value, Value), scheduled: Option<Value>, result: R)

  /** The installed `Object.defineProperty` wrapper. `origDefine` is the
      function captured at install time. */
  function DefinePropertyHook<R>(obj: Value, prop: Value, descriptor: Value,
                                 origDefine: (Value, Value, Value) -> R): (c: DefineCall<R>)
    ensures c.forwarded == (obj, prop, descriptor)
    ensures c.result == origDefine(obj, prop, descriptor)
    ensures c.scheduled.Some? ==> c.scheduled.value == obj
    ensures c.scheduled.Some? <==>
      && Truthy(obj)
      && prop in {Str(TYPE_KEY), Str(FLAGS_KEY)}
      && descriptor.Obj? && "value" in descriptor.fields
      && descriptor.fields["value"].Str?
      && Contains(descriptor.fields["value"].s, MEDIA_MARKER)
  {
    DefineTriggersIff(obj, prop, descriptor);
    var scheduled := if DefineTriggers(obj, prop, descriptor) then Some(obj) else None;
    DefineCall((obj, prop, descriptor), scheduled, origDefine(obj, prop, descriptor))
  }

  /** The callbacks scheduled by `depth` stacked wrappers for one triggering
      call, run one after another on the target's state. */
  function RunDeferred(count: nat, target: Value): Value
    decreases count
  {
    if count == 0 then target else RunDeferred(count - 1, DeferredInject(target))
  }

  /** Stacked installs each schedule a callback for the same call; running
      them all has the effect of running one. */
  lemma {:induction false} RunDeferredCollapse(count: nat, target: Value)
    requires count >= 1
    ensures RunDeferred(count, target) == DeferredInject(target)
    decreases count
  {
    if count > 1 {
      RulesIdempotent(map[], target);
      RunDeferredCollapse(count - 1, DeferredInject(target));
    }
  }
}
