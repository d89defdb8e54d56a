/**
 * The accessor every property gets on a resource: `x` reads, `x v` validates and sets,
 * `x nil` is a deprecated read, and `x = v` sets (nil included).
 */
module Accessor {
  import opened Values
  import opened Properties
  import opened Registries
  import opened Resolvers

  /** What one accessor call returns, and the store after it. */
  datatype Step = Step(result: Result<Value>, store: ValueStore)

  /** An explicit set of `n` to `v`: validation first; a rejected value leaves the store as it was. */
  function Set(reg: Registry, store: ValueStore, n: string, v: Value): (s: Step)
    requires n in reg.entries
  {
    match Validate(n, reg.entries[n], v)
    case Ok(w) => Step(Ok(w), store[n := w])
    case Err(e) => Step(Err(e), store)
  }

  /**
   * `resource.n` (arg `None`) or `resource.n arg` (arg `Some(v)`). A nil argument is the
   * deprecated spelling of a read: it raises when deprecation warnings are treated as
   * errors, and reads otherwise.
   */
  function Call(reg: Registry, store: ValueStore, n: string, arg: Option<Value>, deprecationErrors: bool): Step {
    if n !in reg.entries then Step(Err(NoSuchProperty(n)), store)
    else match arg
      case None => Step(Ok(Effective(reg, store, n)), store)
      case Some(Nil) =>
        if deprecationErrors then Step(Err(DeprecatedFeatureError(n)), store)
        else Step(Ok(Effective(reg, store, n)), store)
      case Some(v) => Set(reg, store, n, v)
  }

  /** `resource.n = v`: a plain set, so nil is stored like any other value. */
  function Assign(reg: Registry, store: ValueStore, n: string, v: Value): Step {
    if n !in reg.entries then Step(Err(NoSuchProperty(n)), store)
    else Set(reg, store, n, v)
  }

  /** A name that is not a declared property has no accessor; nothing changes. */
  lemma UndeclaredRaises(reg: Registry, store: ValueStore, n: string, arg: Option<Value>, b: bool, v: Value)
    requires n !in reg.entries
    ensures Call(reg, store, n, arg, b) == Step(Err(NoSuchProperty(n)), store)
    ensures Assign(reg, store, n, v) == Step(Err(NoSuchProperty(n)), store)
  {
  }

  /** A read returns the value a get of `n` resolves to and changes nothing. */
  lemma GetReads(reg: Registry, store: ValueStore, n: string, b: bool)
    requires n in reg.entries
    ensures Call(reg, store, n, None, b) == Step(Ok(Effective(reg, store, n)), store)
  {
  }

  /**
   * An unset property that is not a `name_property` reads as its default, or as nil when
   * it has none. That value is what `state` shows for it; but when several properties make
   * up `identity`, their hash leaves it out, default and all.
   */
  lemma UnsetFallback(reg: Registry, store: ValueStore, n: string, b: bool)
    requires WellFormed(reg) && n in reg.entries && n !in store && !reg.entries[n].nameProperty
    ensures var d := reg.entries[n].default;
            var v := if d.Some? then d.value else Nil;
            && Call(reg, store, n, None, b) == Step(Ok(v), store)
            && (reg.entries[n].desiredState ==> n in State(reg, store) && State(reg, store)[n] == v)
            && (|IdentityProperties(reg)| > 1 ==> n !in Identity(reg, store).fields)
  {
    StateShape(reg, store);
    if |IdentityProperties(reg)| > 1 {
      CompositeIdentity(reg, store);
    }
  }

  /**
   * `x v` with a non-nil value succeeds exactly when validation accepts it; then it
   * returns `v` and stores it, and otherwise it raises ValidationFailed and changes nothing.
   */
  lemma SetOutcome(reg: Registry, store: ValueStore, n: string, v: Value, b: bool)
    requires n in reg.entries && v != Nil
    ensures var s := Call(reg, store, n, Some(v), b);
            && (s.result.Ok? <==> Accepts(reg.entries[n].kind, v))
            && (s.result.Ok? ==> s == Step(Ok(v), store[n := v]))
            && (s.result.Err? ==> s == Step(Err(ValidationFailed(n)), store))
  {
  }

  /** A call-style set returns the value, and a later read returns it too. */
  lemma SetThenGet(reg: Registry, store: ValueStore, n: string, v: Value, b: bool)
    requires n in reg.entries && v != Nil && Accepts(reg.entries[n].kind, v)
    ensures var s := Call(reg, store, n, Some(v), b);
            && s.result == Ok(v)
            && Call(reg, s.store, n, None, b).result == Ok(v)
  {
  }

  /** A second call-style set overwrites the first: the latest value wins. */
  lemma LatestWins(reg: Registry, store: ValueStore, n: string, v1: Value, v2: Value, b: bool)
    requires n in reg.entries && v1 != Nil && v2 != Nil
    requires Accepts(reg.entries[n].kind, v1) && Accepts(reg.entries[n].kind, v2)
    ensures var s1 := Call(reg, store, n, Some(v1), b);
            var s2 := Call(reg, s1.store, n, Some(v2), b);
            && s2.result == Ok(v2)
            && s2.store == store[n := v2]
            && Call(reg, s2.store, n, None, b).result == Ok(v2)
  {
  }

  /** With deprecation warnings as errors, `x nil` raises DeprecatedFeatureError and changes nothing. */
  lemma NilCallRaises(reg: Registry, store: ValueStore, n: string)
    requires n in reg.entries
    ensures Call(reg, store, n, Some(Nil), true) == Step(Err(DeprecatedFeatureError(n)), store)
  {
  }

  /** With the switch off, `x nil` is a read: it returns the stored value and changes nothing. */
  lemma NilCallReads(reg: Registry, store: ValueStore, n: string)
    requires n in reg.entries
    ensures Call(reg, store, n, Some(Nil), false) == Call(reg, store, n, None, false)
    ensures n in store ==> Call(reg, store, n, Some(Nil), false) == Step(Ok(store[n]), store)
  {
  }

  /** `x = nil` stores nil: the assignment yields nil, and a later read returns nil, not a default. */
  lemma AssignNil(reg: Registry, store: ValueStore, n: string, b: bool)
    requires n in reg.entries
    ensures var s := Assign(reg, store, n, Nil);
            && s == Step(Ok(Nil), store[n := Nil])
            && Call(reg, s.store, n, None, b).result == Ok(Nil)
  {
  }

  /** `x = v` after any earlier set replaces the value, and a later read returns `v`. */
  lemma AssignOverwrite(reg: Registry, store: ValueStore, n: string, v: Value, b: bool)
    requires n in reg.entries && Accepts(reg.entries[n].kind, v)
    ensures var s := Assign(reg, store, n, v);
            && s == Step(Ok(v), store[n := v])
            && Call(reg, s.store, n, None, b).result == Ok(v)
  {
  }

  /** A `String` property rejects an integer, by call or by assignment, and keeps its value. */
  lemma StringRejectsInt(reg: Registry, store: ValueStore, n: string, i: int, b: bool)
    requires n in reg.entries && reg.entries[n].kind == StringType
    ensures Call(reg, store, n, Some(Int(i)), b) == Step(Err(ValidationFailed(n)), store)
    ensures Assign(reg, store, n, Int(i)) == Step(Err(ValidationFailed(n)), store)
  {
  }

  /**
   * `identity_attr :p` does not change any accessor of a declared property: every call
   * and every assignment behaves as before, validation included.
   */
  lemma IdentityAttrKeepsAccessors(inherited: Registry, local: Registry, p: string,
                                   store: ValueStore, n: string, arg: Option<Value>, b: bool, v: Value)
    requires WellFormed(inherited) && WellFormed(local)
    requires n in Merge(inherited, local).entries
    ensures var before := Merge(inherited, local);
            var after := Merge(inherited, IdentityAttrLocal(inherited, local, p));
            && Call(after, store, n, arg, b) == Call(before, store, n, arg, b)
            && Assign(after, store, n, v) == Assign(before, store, n, v)
  {
    var before := Merge(inherited, local);
    var after := Merge(inherited, IdentityAttrLocal(inherited, local, p));
    IdentityAttrSetEffect(inherited, local, p);
    RetaggedKeepsDescriptor(before, after, p, n);
    AccessorsIgnoreIdentity(before, after, store, n, arg, b, v);
  }

  lemma RetaggedKeepsDescriptor(before: Registry, after: Registry, p: string, n: string)
    requires Retagged(before, after, p) && n in before.entries
    ensures n in after.entries && after.entries[n] == before.entries[n].(identity := after.entries[n].identity)
  {
  }

  /** The accessors of `n` read nothing of its descriptor but the type, default and `name_property`. */
  lemma AccessorsIgnoreIdentity(r1: Registry, r2: Registry, store: ValueStore, n: string, arg: Option<Value>, b: bool, v: Value)
    requires n in r1.entries && n in r2.entries
    requires r2.entries[n] == r1.entries[n].(identity := r2.entries[n].identity)
    ensures Call(r2, store, n, arg, b) == Call(r1, store, n, arg, b)
    ensures Assign(r2, store, n, v) == Assign(r1, store, n, v)
  {
    assert Effective(r2, store, n) == Effective(r1, store, n);
  }
}
