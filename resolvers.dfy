/**
 * What a resource reports about its properties: the value a get returns,
 * `identity` and `state`, all computed from the registry its class sees and
 * the values set on the resource.
 */
module Resolvers {
  import opened Values
  import opened Properties
  import opened Registries

  /** The values set on one resource; a name is present exactly when that property is set. */
  type ValueStore = map<string, Value>

  /** The resource's name, as set by `Resource.new(name)`. */
  function NameOf(store: ValueStore): Value {
    if NameKey in store then store[NameKey] else Nil
  }

  /**
   * The value a get of `n` returns: the set value; else, for a `name_property`, the
   * resource's name; else the default; else nil.
   */
  function Effective(reg: Registry, store: ValueStore, n: string): Value {
    if n in store then store[n]
    else if n !in reg.entries then Nil
    else if reg.entries[n].nameProperty then NameOf(store)
    else if reg.entries[n].default.Some? then reg.entries[n].default.value
    else Nil
  }

  /** The properties that make up `identity`: the identity properties, else `name` alone. */
  function IdentitySet(reg: Registry): seq<string> {
    var ids := IdentityProperties(reg);
    if ids == [] then [NameKey] else ids
  }

  /** What `identity` returns: one value, or a hash from property name to value. */
  datatype IdentityValue = Scalar(value: Value) | Composite(fields: map<string, Value>)

  /**
   * `identity`: with exactly one identity property, its value (set or not); otherwise
   * a hash of the identity properties that are set.
   */
  function Identity(reg: Registry, store: ValueStore): IdentityValue {
    var ids := IdentitySet(reg);
    if |ids| == 1 then Scalar(Effective(reg, store, ids[0]))
    else Composite(map n | n in ids && n in store :: store[n])
  }

  /** `state`: every desired-state property mapped to the value a get of it returns. */
  function State(reg: Registry, store: ValueStore): map<string, Value> {
    map n | n in StateAttrs(reg) :: Effective(reg, store, n)
  }

  /**
   * With no property flagged identity, `identity_attr` is `:name`, `name` is not flagged,
   * and `identity` is the resource's name.
   */
  lemma NoIdentityMeansName(reg: Registry, store: ValueStore)
    requires forall n :: n in reg.entries ==> !reg.entries[n].identity
    ensures IdentityAttr(reg) == NameKey
    ensures NameKey in reg.entries ==> !reg.entries[NameKey].identity
    ensures Identity(reg, store) == Scalar(Effective(reg, store, NameKey))
    ensures NameKey in store ==> Identity(reg, store) == Scalar(NameOf(store))
  {
    var ids := IdentityProperties(reg);
    assert forall n :: n !in ids;
    assert forall s: seq<string> :: s != [] ==> s[0] in s;
    assert !HasIdentity(reg);
  }

  /** With one identity property `x`, `identity` is the value a get of `x` returns. */
  lemma SoleIdentityIsScalar(reg: Registry, store: ValueStore, x: string)
    requires IdentityProperties(reg) == [x]
    ensures IdentityAttr(reg) == x
    ensures Identity(reg, store) == Scalar(Effective(reg, store, x))
    ensures x in store ==> Identity(reg, store) == Scalar(store[x])
  {
  }

  /**
   * With several identity properties, `identity` is a hash holding exactly the ones
   * that are set, with their set values: defaults and name fallbacks never appear, a
   * single set one still gives a hash, and none set gives the empty hash.
   */
  lemma CompositeIdentity(reg: Registry, store: ValueStore)
    requires |IdentityProperties(reg)| > 1
    ensures Identity(reg, store).Composite?
    ensures var fields := Identity(reg, store).fields;
            && (forall n :: n in fields <==> n in IdentityProperties(reg) && n in store)
            && (forall n :: n in fields ==> fields[n] == store[n])
    ensures (forall n :: n in IdentityProperties(reg) ==> n !in store) ==> Identity(reg, store) == Composite(map[])
  {
  }

  /**
   * `state` holds exactly the `state_attrs`, each with the value a get returns; a
   * property declared `desired_state: false` is absent whether or not it is identity.
   */
  lemma StateShape(reg: Registry, store: ValueStore)
    requires WellFormed(reg)
    ensures forall n :: n in State(reg, store) <==> n in reg.entries && reg.entries[n].desiredState
    ensures forall n :: n in State(reg, store) ==> State(reg, store)[n] == Effective(reg, store, n)
  {
  }

  /** An unset `name_property` falls back to the resource's name, in `identity` and in `state`. */
  lemma NamePropertyFallback(reg: Registry, store: ValueStore, x: string)
    requires WellFormed(reg)
    requires x in reg.entries && reg.entries[x].nameProperty && x !in store
    ensures IdentityProperties(reg) == [x] ==> Identity(reg, store) == Scalar(NameOf(store))
    ensures reg.entries[x].desiredState ==> x in State(reg, store) && State(reg, store)[x] == NameOf(store)
  {
  }

  /** Two registries that differ at most in identity flags. */
  ghost predicate SameUpToIdentity(r1: Registry, r2: Registry) {
    && r1.order == r2.order
    && r1.entries.Keys == r2.entries.Keys
    && forall n :: n in r1.entries ==> r2.entries[n] == r1.entries[n].(identity := r2.entries[n].identity)
  }

  /** Desired state does not depend on identity flags: `state_attrs`, gets and `state` agree. */
  lemma StateIgnoresIdentity(r1: Registry, r2: Registry, store: ValueStore)
    requires SameUpToIdentity(r1, r2)
    ensures StateAttrs(r1) == StateAttrs(r2)
    ensures forall n :: Effective(r1, store, n) == Effective(r2, store, n)
    ensures State(r1, store) == State(r2, store)
  {
    FlaggedCongruence(r1.order, r1.entries, r2.entries, DesiredStateFlag);
  }

  /** `identity_attr :p` on a declared property leaves `state_attrs` and `state` unchanged. */
  lemma IdentityAttrKeepsStateValues(inherited: Registry, local: Registry, p: string, store: ValueStore)
    requires WellFormed(inherited) && WellFormed(local)
    requires p in Merge(inherited, local).entries
    ensures var before := Merge(inherited, local);
            var after := Merge(inherited, IdentityAttrLocal(inherited, local, p));
            StateAttrs(after) == StateAttrs(before) && State(after, store) == State(before, store)
  {
    var before := Merge(inherited, local);
    var after := Merge(inherited, IdentityAttrLocal(inherited, local, p));
    IdentityAttrSetEffect(inherited, local, p);
    RetaggedSameUpToIdentity(before, after, p);
    StateIgnoresIdentity(before, after, store);
  }

  lemma RetaggedSameUpToIdentity(before: Registry, after: Registry, p: string)
    requires Retagged(before, after, p) && p in before.entries
    ensures SameUpToIdentity(before, after)
  {
  }

  /**
   * After `identity_attr :p`, `identity` is the value a get of `p` returns, whatever
   * other properties were flagged identity before.
   */
  lemma IdentityAfterIdentityAttr(inherited: Registry, local: Registry, p: string, store: ValueStore)
    requires WellFormed(inherited) && WellFormed(local)
    ensures var after := Merge(inherited, IdentityAttrLocal(inherited, local, p));
            && IdentityAttr(after) == p
            && Identity(after, store) == Scalar(Effective(after, store, p))
  {
    IdentityAttrSetSole(inherited, local, p);
  }
}
