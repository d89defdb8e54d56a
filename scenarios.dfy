/**
 * The examples of the two test files, replayed on the model for any property names
 * the examples could have used: each lemma builds the registry the example's
 * declarations produce and the values it sets, and states what the example expects.
 */
module Scenarios {
  import opened Values
  import opened Properties
  import opened Registries
  import opened Resolvers
  import opened Accessor
  import Resources

  /** `Resource.new("blah")`. */
  function Named(name: string): ValueStore {
    map[NameKey := Str(name)]
  }

  /** One `property y, ...` in a subclass of a class that sees `inherited` and not `y`. */
  lemma DeclaredOnto(inherited: Registry, y: string, d: Property)
    requires y !in inherited.entries
    ensures Merge(inherited, Declare(Empty, y, d)).order == inherited.order + [y]
    ensures Merge(inherited, Declare(Empty, y, d)).entries == inherited.entries[y := d]
  {
    MergeDeclare(inherited, Empty, y, d);
    MergeOntoEmpty(inherited);
  }

  /** A fresh resource class after `property :x`: `name`, then `x`. */
  lemma DeclaredOne(x: string, d: Property)
    requires x != NameKey
    ensures var m := Merge(Base, Declare(Empty, x, d));
            && WellFormed(Declare(Empty, x, d))
            && m.order == [NameKey, x]
            && m.entries.Keys == {NameKey, x}
            && m.entries[NameKey] == NameDescriptor && m.entries[x] == d
  {
    DeclaredOneWellFormed(x, d);
    DeclaredOnto(Base, x, d);
    assert [NameKey] + [x] == [NameKey, x];
  }

  lemma DeclaredOneWellFormed(x: string, d: Property)
    ensures WellFormed(Declare(Empty, x, d))
  {
    assert Empty.order[..0] == [];
    DeclareWellFormed(Empty, x, d);
  }

  /** resource_property_spec.rb lines 54-57: `x v` returns `v`, and `x` then reads `v`. */
  lemma BareSetThenGet(x: string, name: string, v: Value)
    requires x != NameKey && v != Nil
    ensures var reg := Merge(Base, Declare(Empty, x, Bare));
            var s := Call(reg, Named(name), x, Some(v), true);
            && s.result == Ok(v)
            && Call(reg, s.store, x, None, true).result == Ok(v)
  {
    var reg := Merge(Base, Declare(Empty, x, Bare));
    DeclaredOne(x, Bare);
    SetThenGet(reg, Named(name), x, v, true);
  }

  /**
   * resource_property_spec.rb lines 65-69: after `x v`, `x w` returns `w`, and `x` then
   * reads `w`.
   */
  lemma BareUpdate(x: string, name: string, v: Value, w: Value)
    requires x != NameKey && v != Nil && w != Nil
    ensures var reg := Merge(Base, Declare(Empty, x, Bare));
            var s1 := Call(reg, Named(name), x, Some(v), true);
            var s2 := Call(reg, s1.store, x, Some(w), true);
            && s1.result == Ok(v)
            && s2.result == Ok(w)
            && Call(reg, s2.store, x, None, true).result == Ok(w)
  {
    var reg := Merge(Base, Declare(Empty, x, Bare));
    DeclaredOne(x, Bare);
    SetOutcome(reg, Named(name), x, v, true);
    LatestWins(reg, Named(name), x, v, w, true);
  }

  /**
   * resource_property_spec.rb lines 58-64: after `x 10`, `x nil` raises while deprecation
   * warnings are errors; with the switch off it reads 10, and so does `x`.
   */
  lemma BareNilIsDeprecatedRead(x: string, name: string, v: Value)
    requires x != NameKey && v != Nil
    ensures var reg := Merge(Base, Declare(Empty, x, Bare));
            var s := Call(reg, Named(name), x, Some(v), true);
            && s.result == Ok(v)
            && Call(reg, s.store, x, Some(Nil), true).result == Err(DeprecatedFeatureError(x))
            && Call(reg, s.store, x, Some(Nil), false).result == Ok(v)
            && Call(reg, s.store, x, None, false).result == Ok(v)
  {
    var reg := Merge(Base, Declare(Empty, x, Bare));
    DeclaredOne(x, Bare);
    SetOutcome(reg, Named(name), x, v, true);
    var store := Named(name)[x := v];
    NilCallRaises(reg, store, x);
    NilCallReads(reg, store, x);
    GetReads(reg, store, x, false);
  }

  /**
   * resource_property_spec.rb lines 74-83: after `x 10`, `x = nil` yields and stores nil,
   * and `x = 20` yields and stores 20.
   */
  lemma BareAssignments(x: string, name: string, v: Value, w: Value)
    requires x != NameKey && v != Nil
    ensures var reg := Merge(Base, Declare(Empty, x, Bare));
            var s := Call(reg, Named(name), x, Some(v), true).store;
            && Assign(reg, s, x, Nil).result == Ok(Nil)
            && Call(reg, Assign(reg, s, x, Nil).store, x, None, true).result == Ok(Nil)
            && Assign(reg, s, x, w).result == Ok(w)
            && Call(reg, Assign(reg, s, x, w).store, x, None, true).result == Ok(w)
  {
    var reg := Merge(Base, Declare(Empty, x, Bare));
    DeclaredOne(x, Bare);
    SetOutcome(reg, Named(name), x, v, true);
    var store := Named(name)[x := v];
    AssignNil(reg, store, x, true);
    AssignOverwrite(reg, store, x, w, true);
  }

  /** `with_property ":x"`: `name` is the default identity (lines 54-58). */
  lemma NameIsDefaultIdentity(x: string, name: string)
    requires x != NameKey
    ensures var reg := Merge(Base, Declare(Empty, x, Bare));
            && IdentityAttr(reg) == NameKey
            && !reg.entries[NameKey].identity
            && Call(reg, Named(name), NameKey, None, true).result == Ok(Str(name))
            && Identity(reg, Named(name)) == Scalar(Str(name))
  {
    var reg := Merge(Base, Declare(Empty, x, Bare));
    DeclaredOne(x, Bare);
    assert forall n :: n in reg.entries ==> !reg.entries[n].identity;
    NoIdentityMeansName(reg, Named(name));
    GetReads(reg, Named(name), NameKey, true);
  }

  /** `identity_attr :x` makes the value of `x` the identity (lines 61-72). */
  lemma IdentityAttrChangesIdentity(x: string, name: string, v: Value)
    requires x != NameKey
    requires v != Nil
    ensures var local := Declare(Empty, x, Bare);
            var reg := Merge(Base, IdentityAttrLocal(Base, local, x));
            var s := Call(reg, Named(name), x, Some(v), true);
            && IdentityAttr(reg) == x
            && !reg.entries[NameKey].identity
            && reg.entries[x].identity
            && s.result == Ok(v)
            && Call(reg, s.store, x, None, true).result == Ok(v)
            && Call(reg, s.store, NameKey, None, true).result == Ok(Str(name))
            && Identity(reg, s.store) == Scalar(v)
  {
    var local := Declare(Empty, x, Bare);
    var before := Merge(Base, local);
    var reg := Merge(Base, IdentityAttrLocal(Base, local, x));
    DeclaredOne(x, Bare);
    BaseWellFormed();
    IdentityAttrSetEffect(Base, local, x);
    assert reg.entries[x] == Bare.(identity := true) && reg.entries[NameKey] == NameDescriptor;
    var store := Named(name)[x := v];
    SetThenGet(reg, Named(name), x, v, true);
    SetOutcome(reg, Named(name), x, v, true);
    GetReads(reg, store, NameKey, true);
    IdentityAfterIdentityAttr(Base, local, x, store);
  }

  /** One more `property z, ...` for a name the class does not see yet: `z` goes last. */
  lemma DeclaredNext(local: Registry, order: seq<string>, z: string, d: Property)
    requires WellFormed(local) && Merge(Base, local).order == order && z !in Merge(Base, local).entries
    ensures WellFormed(Declare(local, z, d))
    ensures Merge(Base, Declare(local, z, d)).order == order + [z]
    ensures Merge(Base, Declare(local, z, d)).entries == Merge(Base, local).entries[z := d]
  {
    DeclareWellFormed(local, z, d);
    MergeDeclare(Base, local, z, d);
  }

  /** A fresh resource class after `property :x, ...` and `property :y, ...`: `name`, `x`, `y`. */
  lemma DeclaredTwo(x: string, dx: Property, y: string, dy: Property)
    requires x != NameKey && y != NameKey && x != y
    ensures var local := Declare(Declare(Empty, x, dx), y, dy);
            var m := Merge(Base, local);
            && WellFormed(local)
            && m.order == [NameKey, x, y]
            && m.entries.Keys == {NameKey, x, y}
            && m.entries[NameKey] == NameDescriptor && m.entries[x] == dx && m.entries[y] == dy
  {
    DeclaredOne(x, dx);
    DeclaredNext(Declare(Empty, x, dx), [NameKey, x], y, dy);
    assert [NameKey, x] + [y] == [NameKey, x, y];
  }

  /** `name` is never desired state, so `state_attrs` lists `x` and `y` as flagged. */
  lemma StateAttrsOfTwo(m: Registry, x: string, y: string)
    requires m.order == [NameKey, x, y] && m.entries.Keys == {NameKey, x, y}
    requires m.entries[NameKey] == NameDescriptor
    ensures StateAttrs(m) == (if m.entries[x].desiredState then [x] else [])
                             + (if m.entries[y].desiredState then [y] else [])
  {
    assert [NameKey] == [] + [NameKey];
    assert [NameKey, x] == [NameKey] + [x];
    assert [NameKey, x, y] == [NameKey, x] + [y];
    FlaggedSnoc([], NameKey, m.entries, DesiredStateFlag);
    FlaggedSnoc([NameKey], x, m.entries, DesiredStateFlag);
    FlaggedSnoc([NameKey, x], y, m.entries, DesiredStateFlag);
  }

  /**
   * Retagging `p`, one of `x` and `y`, in the registry `name`, `x`, `y` keeps both
   * accessors' types and the desired-state list, since only identity flags change.
   */
  lemma RetaggedTwo(before: Registry, after: Registry, x: string, y: string, p: string)
    requires x != NameKey && y != NameKey && x != y && (p == x || p == y)
    requires before.order == [NameKey, x, y] && before.entries.Keys == {NameKey, x, y}
    requires before.entries[NameKey] == NameDescriptor
    requires before.entries[x].desiredState && before.entries[y].desiredState
    requires Retagged(before, after, p)
    ensures x in after.entries && after.entries[x].kind == before.entries[x].kind
    ensures y in after.entries && after.entries[y].kind == before.entries[y].kind
    ensures StateAttrs(after) == [x, y]
  {
    RetaggedSameUpToIdentity(before, after, p);
    StateIgnoresIdentity(before, after, map[]);
    StateAttrsOfTwo(before, x, y);
  }

  /** With `state_attrs` `[x, y]` and both set, `state` is exactly those two values. */
  lemma StateOfTwo(reg: Registry, store: ValueStore, x: string, y: string)
    requires StateAttrs(reg) == [x, y] && x in store && y in store
    ensures State(reg, store) == map[x := store[x], y := store[y]]
  {
    assert forall n :: n in StateAttrs(reg) <==> n == x || n == y;
  }

  /** The registry of lines 82-93 after `identity_attr :x`, and what it keeps of the one before. */
  lemma OverrideRegistry(x: string, y: string)
    requires x != NameKey && y != NameKey && x != y
    ensures var local := Declare(Declare(Empty, x, Bare), y, Bare.(identity := true));
            var reg := Merge(Base, IdentityAttrLocal(Base, local, x));
            && x in reg.entries && reg.entries[x].kind == AnyType
            && y in reg.entries && reg.entries[y].kind == AnyType
            && StateAttrs(reg) == [x, y]
            && IdentityProperties(reg) == [x]
  {
    var local := Declare(Declare(Empty, x, Bare), y, Bare.(identity := true));
    var before := Merge(Base, local);
    var reg := Merge(Base, IdentityAttrLocal(Base, local, x));
    DeclaredTwo(x, Bare, y, Bare.(identity := true));
    BaseWellFormed();
    IdentityAttrSetEffect(Base, local, x);
    IdentityAttrSetSole(Base, local, x);
    RetaggedTwo(before, reg, x, y, x);
  }

  /**
   * `property :x`, `property :y, identity: true`, `identity_attr :x`: only `x` is the
   * identity, and `y` stays in the desired state (lines 82-93).
   */
  lemma IdentityAttrOverridesIdentityTrue(x: string, y: string, name: string, vx: Value, vy: Value)
    requires x != NameKey && y != NameKey && x != y
    requires vx != Nil && vy != Nil
    ensures var local := Declare(Declare(Empty, x, Bare), y, Bare.(identity := true));
            var reg := Merge(Base, IdentityAttrLocal(Base, local, x));
            var s1 := Call(reg, Named(name), x, Some(vx), true).store;
            var s2 := Call(reg, s1, y, Some(vy), true).store;
            && IdentityAttr(reg) == x
            && Identity(reg, s2) == Scalar(vx)
            && StateAttrs(reg) == [x, y]
            && State(reg, s2) == map[x := vx, y := vy]
  {
    var local := Declare(Declare(Empty, x, Bare), y, Bare.(identity := true));
    var reg := Merge(Base, IdentityAttrLocal(Base, local, x));
    OverrideRegistry(x, y);
    var s1 := Named(name)[x := vx];
    var s2 := s1[y := vy];
    SetOutcome(reg, Named(name), x, vx, true);
    SetOutcome(reg, s1, y, vy, true);
    SoleIdentityIsScalar(reg, s2, x);
    StateOfTwo(reg, s2, x, y);
  }

  /**
   * A registry that lists `name` and then `names`, where `name` lacks flag `f` and every
   * one of `names` has it: the names flagged `f` are exactly `names`, in order.
   */
  lemma {:induction false} FlaggedAfterName(order: seq<string>, entries: map<string, Property>, names: seq<string>, f: Flag)
    requires order == [NameKey] + names
    requires NameKey in entries && !Has(entries[NameKey], f)
    requires forall n :: n in names ==> n in entries && Has(entries[n], f)
    ensures Flagged(order, entries, f) == names
    decreases |names|
  {
    if names == [] {
      assert order == [] + [NameKey];
      FlaggedSnoc([], NameKey, entries, f);
    } else {
      var init, last := names[..|names| - 1], names[|names| - 1];
      assert order == ([NameKey] + init) + [last];
      assert init + [last] == names;
      FlaggedAfterName([NameKey] + init, entries, init, f);
      FlaggedSnoc([NameKey] + init, last, entries, f);
    }
  }

  /**
   * Lines 240-247: with `property :x, identity: true` alone, `identity_attr` is `x` and,
   * once `x` is set, `identity` is that value rather than a hash or the name.
   */
  lemma DeclaredIdentityIsScalar(x: string, name: string, v: Value)
    requires x != NameKey
    requires v != Nil
    ensures var reg := Merge(Base, Declare(Empty, x, Bare.(identity := true)));
            var s := Call(reg, Named(name), x, Some(v), true);
            && IdentityAttr(reg) == x
            && s.result == Ok(v)
            && Identity(reg, s.store) == Scalar(v)
  {
    var reg := Merge(Base, Declare(Empty, x, Bare.(identity := true)));
    DeclaredOne(x, Bare.(identity := true));
    assert reg.order == [NameKey] + [x];
    FlaggedAfterName(reg.order, reg.entries, [x], IdentityFlag);
    SetOutcome(reg, Named(name), x, v, true);
    SoleIdentityIsScalar(reg, Named(name)[x := v], x);
  }

  /** `property n, identity: true, default: d`. */
  function IdentityWithDefault(d: string): Property {
    Bare.(identity := true, default := Some(Str(d)))
  }

  /** The registry of lines 252-254: `x`, `y` and `z`, each identity with a default. */
  function ThreeIdentities(x: string, y: string, z: string, dx: string, dy: string, dz: string): Registry {
    Declare(Declare(Declare(Empty, x, IdentityWithDefault(dx)), y, IdentityWithDefault(dy)), z, IdentityWithDefault(dz))
  }

  /** A fresh resource class after three `property` declarations: `name`, `x`, `y`, `z`. */
  lemma DeclaredThree(x: string, y: string, z: string, dx: string, dy: string, dz: string)
    requires x != NameKey && y != NameKey && z != NameKey && x != y && y != z && x != z
    ensures var local := ThreeIdentities(x, y, z, dx, dy, dz);
            var m := Merge(Base, local);
            && WellFormed(local)
            && m.order == [NameKey, x, y, z]
            && m.entries.Keys == {NameKey, x, y, z}
            && m.entries[NameKey] == NameDescriptor
            && m.entries[x] == IdentityWithDefault(dx)
            && m.entries[y] == IdentityWithDefault(dy)
            && m.entries[z] == IdentityWithDefault(dz)
  {
    var l1 := Declare(Empty, x, IdentityWithDefault(dx));
    var l2 := Declare(l1, y, IdentityWithDefault(dy));
    DeclaredOne(x, IdentityWithDefault(dx));
    DeclaredNext(l1, [NameKey, x], y, IdentityWithDefault(dy));
    assert [NameKey, x] + [y] == [NameKey, x, y];
    DeclaredNext(l2, [NameKey, x, y], z, IdentityWithDefault(dz));
    assert [NameKey, x, y] + [z] == [NameKey, x, y, z];
  }

  /** A registry listing `name`, `x`, `y`, `z`, the last three identity and untyped. */
  lemma IdentitiesOfShape(m: Registry, x: string, y: string, z: string, dx: string, dy: string, dz: string)
    requires m.order == [NameKey, x, y, z] && m.entries.Keys == {NameKey, x, y, z}
    requires m.entries[NameKey] == NameDescriptor
    requires m.entries[x] == IdentityWithDefault(dx)
    requires m.entries[y] == IdentityWithDefault(dy)
    requires m.entries[z] == IdentityWithDefault(dz)
    ensures IdentityProperties(m) == [x, y, z] && IdentityAttr(m) == x
  {
    assert m.order == [NameKey] + [x, y, z];
    FlaggedAfterName(m.order, m.entries, [x, y, z], IdentityFlag);
  }

  /** In the registry of lines 252-254 every one of `x`, `y`, `z` is identity, `x` first. */
  lemma ThreeIdentitiesRegistry(x: string, y: string, z: string, dx: string, dy: string, dz: string)
    requires x != NameKey && y != NameKey && z != NameKey && x != y && y != z && x != z
    ensures var reg := Merge(Base, ThreeIdentities(x, y, z, dx, dy, dz));
            && IdentityProperties(reg) == [x, y, z]
            && IdentityAttr(reg) == x
            && x in reg.entries && reg.entries[x].kind == AnyType
            && y in reg.entries && reg.entries[y].kind == AnyType
            && z in reg.entries && reg.entries[z].kind == AnyType
  {
    DeclaredThree(x, y, z, dx, dy, dz);
    IdentitiesOfShape(Merge(Base, ThreeIdentities(x, y, z, dx, dy, dz)), x, y, z, dx, dy, dz);
  }

  /** Two maps with the same keys and the same value at each key are equal. */
  lemma SameMap(f: map<string, Value>, g: map<string, Value>)
    requires forall n :: n in f <==> n in g
    requires forall n :: n in f ==> f[n] == g[n]
    ensures f == g
  {
  }

  /** Identity properties `x`, `y`, `z`, all three set: the hash holds all three. */
  lemma CompositeAllSet(reg: Registry, store: ValueStore, x: string, y: string, z: string)
    requires IdentityProperties(reg) == [x, y, z] && x != y && y != z && x != z
    requires x in store && y in store && z in store
    ensures Identity(reg, store) == Composite(map[x := store[x], y := store[y], z := store[z]])
  {
    CompositeIdentity(reg, store);
    var ids := IdentityProperties(reg);
    assert forall n :: n in ids <==> n == x || n == y || n == z;
    SameMap(Identity(reg, store).fields, map[x := store[x], y := store[y], z := store[z]]);
  }

  /** Only `x` and `z` set: the hash leaves `y` out, default and all. */
  lemma CompositeSomeSet(reg: Registry, store: ValueStore, x: string, y: string, z: string)
    requires IdentityProperties(reg) == [x, y, z] && x != y && y != z && x != z
    requires x in store && y !in store && z in store
    ensures Identity(reg, store) == Composite(map[x := store[x], z := store[z]])
  {
    CompositeIdentity(reg, store);
    var ids := IdentityProperties(reg);
    assert forall n :: n in ids <==> n == x || n == y || n == z;
    SameMap(Identity(reg, store).fields, map[x := store[x], z := store[z]]);
  }

  /** Only `x` set: still a hash, with `x` alone. */
  lemma CompositeOneSet(reg: Registry, store: ValueStore, x: string, y: string, z: string)
    requires IdentityProperties(reg) == [x, y, z] && x != y && y != z && x != z
    requires x in store && y !in store && z !in store
    ensures Identity(reg, store) == Composite(map[x := store[x]])
  {
    CompositeIdentity(reg, store);
    var ids := IdentityProperties(reg);
    assert forall n :: n in ids <==> n == x || n == y || n == z;
    SameMap(Identity(reg, store).fields, map[x := store[x]]);
  }

  /**
   * Lines 255-272: with `x`, `y`, `z` all identity, `identity_attr` is `x`, and `identity`
   * is the hash of the values set so far, whatever the defaults.
   */
  lemma MultipleIdentities(x: string, y: string, z: string, dx: string, dy: string, dz: string,
                           name: string, vx: Value, vy: Value, vz: Value)
    requires x != NameKey && y != NameKey && z != NameKey && x != y && y != z && x != z
    requires vx != Nil && vy != Nil && vz != Nil
    ensures var reg := Merge(Base, ThreeIdentities(x, y, z, dx, dy, dz));
            var s1 := Call(reg, Named(name), x, Some(vx), true).store;
            var s2 := Call(reg, s1, y, Some(vy), true).store;
            var s3 := Call(reg, s2, z, Some(vz), true).store;
            var xz := Call(reg, s1, z, Some(vz), true).store;
            && IdentityAttr(reg) == x
            && Identity(reg, s3) == Composite(map[x := vx, y := vy, z := vz])
            && Identity(reg, xz) == Composite(map[x := vx, z := vz])
            && Identity(reg, s1) == Composite(map[x := vx])
            && Identity(reg, Named(name)) == Composite(map[])
  {
    var reg := Merge(Base, ThreeIdentities(x, y, z, dx, dy, dz));
    ThreeIdentitiesRegistry(x, y, z, dx, dy, dz);
    var s1 := Named(name)[x := vx];
    var s2 := s1[y := vy];
    var s3 := s2[z := vz];
    var xz := s1[z := vz];
    SetOutcome(reg, Named(name), x, vx, true);
    SetOutcome(reg, s1, y, vy, true);
    SetOutcome(reg, s2, z, vz, true);
    SetOutcome(reg, s1, z, vz, true);
    CompositeAllSet(reg, s3, x, y, z);
    CompositeSomeSet(reg, xz, x, y, z);
    CompositeOneSet(reg, s1, x, y, z);
    CompositeIdentity(reg, Named(name));
  }

  /** Lines 273-279: `identity_attr :y` wipes out `x` and `z`; `identity` is the value of `y`. */
  lemma IdentityAttrWipesOthers(x: string, y: string, z: string, dx: string, dy: string, dz: string,
                                name: string, vx: Value, vy: Value, vz: Value)
    requires x != NameKey && y != NameKey && z != NameKey && x != y && y != z && x != z
    requires vx != Nil && vy != Nil && vz != Nil
    ensures var local := ThreeIdentities(x, y, z, dx, dy, dz);
            var reg := Merge(Base, IdentityAttrLocal(Base, local, y));
            var s1 := Call(reg, Named(name), x, Some(vx), true).store;
            var s2 := Call(reg, s1, y, Some(vy), true).store;
            var s3 := Call(reg, s2, z, Some(vz), true).store;
            && IdentityAttr(reg) == y
            && Identity(reg, s3) == Scalar(vy)
  {
    var local := ThreeIdentities(x, y, z, dx, dy, dz);
    var before := Merge(Base, local);
    var reg := Merge(Base, IdentityAttrLocal(Base, local, y));
    ThreeIdentitiesRegistry(x, y, z, dx, dy, dz);
    DeclaredThree(x, y, z, dx, dy, dz);
    BaseWellFormed();
    IdentityAttrSetEffect(Base, local, y);
    RetaggedKeepsDescriptor(before, reg, y, x);
    RetaggedKeepsDescriptor(before, reg, y, y);
    RetaggedKeepsDescriptor(before, reg, y, z);
    var s1 := Named(name)[x := vx];
    var s2 := s1[y := vy];
    var s3 := s2[z := vz];
    SetOutcome(reg, Named(name), x, vx, true);
    SetOutcome(reg, s1, y, vy, true);
    SetOutcome(reg, s2, z, vz, true);
    IdentityAfterIdentityAttr(Base, local, y, s3);
  }

  /**
   * Retagging `x` in the registry `name`, `x`: `x` alone is identity, and the desired
   * state is `x` exactly when `x` was declared in it.
   */
  lemma RetaggedOne(before: Registry, after: Registry, x: string)
    requires x != NameKey
    requires before.order == [NameKey, x] && before.entries.Keys == {NameKey, x}
    requires before.entries[NameKey] == NameDescriptor
    requires Retagged(before, after, x)
    ensures after.order == [NameKey, x] && after.entries.Keys == {NameKey, x}
    ensures after.entries[NameKey] == NameDescriptor
    ensures x in after.entries && after.entries[x] == before.entries[x].(identity := true)
    ensures IdentityProperties(after) == [x]
    ensures StateAttrs(after) == if before.entries[x].desiredState then [x] else []
  {
    assert IdentityProperties(after) == [x] by {
      assert after.order == [NameKey] + [x];
      FlaggedAfterName(after.order, after.entries, [x], IdentityFlag);
    }
    assert StateAttrs(after) == StateAttrs(before) by {
      RetaggedSameUpToIdentity(before, after, x);
      StateIgnoresIdentity(before, after, map[]);
    }
    assert StateAttrs(before) == if before.entries[x].desiredState then [x] else [] by {
      assert before.order == [] + [NameKey] + [x];
      FlaggedSnoc([], NameKey, before.entries, DesiredStateFlag);
      FlaggedSnoc([NameKey], x, before.entries, DesiredStateFlag);
    }
  }

  /**
   * Lines 173-179: `property :x, String, identity: true` and `property :y, String`, then
   * `identity_attr :x`: both still reject an integer and keep their values.
   */
  lemma StringOnlyKeepsValidation(x: string, y: string, name: string, i: int)
    requires x != NameKey && y != NameKey && x != y
    ensures var local := Declare(Declare(Empty, x, Bare.(kind := StringType, identity := true)), y, Bare.(kind := StringType));
            var reg := Merge(Base, IdentityAttrLocal(Base, local, x));
            && Call(reg, Named(name), x, Some(Int(i)), true) == Step(Err(ValidationFailed(x)), Named(name))
            && Call(reg, Named(name), y, Some(Int(i)), true) == Step(Err(ValidationFailed(y)), Named(name))
  {
    var local := Declare(Declare(Empty, x, Bare.(kind := StringType, identity := true)), y, Bare.(kind := StringType));
    var reg := Merge(Base, IdentityAttrLocal(Base, local, x));
    DeclaredTwo(x, Bare.(kind := StringType, identity := true), y, Bare.(kind := StringType));
    BaseWellFormed();
    IdentityAttrKeepsKind(Base, local, x, x);
    IdentityAttrKeepsKind(Base, local, x, y);
    StringRejectsInt(reg, Named(name), x, i, true);
    StringRejectsInt(reg, Named(name), y, i, true);
  }

  /** The registry of lines 181-189 after `identity_attr :x`. */
  lemma DesiredStateFalseRegistry(x: string)
    requires x != NameKey
    ensures var reg := Merge(Base, IdentityAttrLocal(Base, Declare(Empty, x, Bare.(desiredState := false)), x));
            && x in reg.entries && reg.entries[x] == Bare.(desiredState := false, identity := true)
            && IdentityProperties(reg) == [x]
            && StateAttrs(reg) == []
  {
    var local := Declare(Empty, x, Bare.(desiredState := false));
    DeclaredOne(x, Bare.(desiredState := false));
    BaseWellFormed();
    IdentityAttrSetEffect(Base, local, x);
    RetaggedOne(Merge(Base, local), Merge(Base, IdentityAttrLocal(Base, local, x)), x);
  }

  /**
   * Lines 181-189: `identity_attr :x` on a property declared `desired_state: false` makes
   * it the identity without putting it into the desired state.
   */
  lemma IdentityAttrKeepsDesiredStateFalse(x: string, name: string, v: Value)
    requires x != NameKey
    requires v != Nil
    ensures var local := Declare(Empty, x, Bare.(desiredState := false));
            var reg := Merge(Base, IdentityAttrLocal(Base, local, x));
            var s := Call(reg, Named(name), x, Some(v), true).store;
            && Identity(reg, s) == Scalar(v)
            && x in reg.entries && !reg.entries[x].desiredState
            && StateAttrs(reg) == []
            && State(reg, s) == map[]
  {
    var local := Declare(Empty, x, Bare.(desiredState := false));
    var reg := Merge(Base, IdentityAttrLocal(Base, local, x));
    DesiredStateFalseRegistry(x);
    var s := Named(name)[x := v];
    SetOutcome(reg, Named(name), x, v, true);
    SoleIdentityIsScalar(reg, s, x);
  }

  /**
   * A registry listing `name` and then `x`, where `x` is identity, desired state and a
   * `name_property`: while `x` is unset, `identity` and `state` use the resource's name.
   */
  lemma NamePropertyOfShape(m: Registry, x: string, store: ValueStore)
    requires x != NameKey && WellFormed(m)
    requires m.order == [NameKey, x] && m.entries[NameKey] == NameDescriptor
    requires x in m.entries && m.entries[x].identity && m.entries[x].desiredState && m.entries[x].nameProperty
    requires x !in store
    ensures Identity(m, store) == Scalar(NameOf(store))
    ensures State(m, store) == map[x := NameOf(store)]
  {
    assert m.order == [NameKey] + [x];
    assert Effective(m, store, x) == NameOf(store);
    assert IdentityProperties(m) == [x] by {
      FlaggedAfterName(m.order, m.entries, [x], IdentityFlag);
    }
    SoleIdentityIsScalar(m, store, x);
    assert StateAttrs(m) == [x] by {
      FlaggedAfterName(m.order, m.entries, [x], DesiredStateFlag);
    }
    StateOfOne(m, store, x);
  }

  /** With `state_attrs` `[x]`, `state` is `x` and the value a get of it returns. */
  lemma StateOfOne(reg: Registry, store: ValueStore, x: string)
    requires StateAttrs(reg) == [x]
    ensures State(reg, store) == map[x := Effective(reg, store, x)]
  {
    assert forall n :: n in StateAttrs(reg) <==> n == x;
  }

  /**
   * Lines 282-289: an unset `identity: true, name_property: true` property stands for the
   * resource's name, in `identity` and in `state`.
   */
  lemma NamePropertyIdentity(x: string, name: string)
    requires x != NameKey
    ensures var reg := Merge(Base, Declare(Empty, x, Bare.(identity := true, nameProperty := true)));
            && Identity(reg, Named(name)) == Scalar(Str(name))
            && State(reg, Named(name)) == map[x := Str(name)]
  {
    var d := Bare.(identity := true, nameProperty := true);
    DeclaredOne(x, d);
    BaseWellFormed();
    MergeWellFormed(Base, Declare(Empty, x, d));
    NamePropertyOfShape(Merge(Base, Declare(Empty, x, d)), x, Named(name));
  }

  /** The superclass of lines 115-120: `property :x`, then `identity_attr :x`. */
  function SuperclassWithIdentityX(x: string): Registry {
    Merge(Base, IdentityAttrLocal(Base, Declare(Empty, x, Bare), x))
  }

  lemma SuperclassWellFormed(x: string)
    ensures WellFormed(SuperclassWithIdentityX(x))
  {
    DeclareWellFormed(Empty, x, Bare);
    BaseWellFormed();
    MergeWellFormed(Base, IdentityAttrLocal(Base, Declare(Empty, x, Bare), x));
  }

  lemma SuperclassShape(x: string)
    requires x != NameKey
    ensures var sup := SuperclassWithIdentityX(x);
            && sup.order == [NameKey, x] && sup.entries.Keys == {NameKey, x}
            && sup.entries[NameKey] == NameDescriptor && sup.entries[x] == Bare.(identity := true)
            && IdentityProperties(sup) == [x]
  {
    var local := Declare(Empty, x, Bare);
    DeclaredOne(x, Bare);
    BaseWellFormed();
    IdentityAttrSetEffect(Base, local, x);
    RetaggedOne(Merge(Base, local), SuperclassWithIdentityX(x), x);
  }

  /** Lines 108-113: a subclass with nothing declared has `name` as its default identity too. */
  lemma SubclassDefaultIdentity(x: string, name: string)
    requires x != NameKey
    ensures var sub := Merge(Merge(Base, Declare(Empty, x, Bare)), Empty);
            && IdentityAttr(sub) == NameKey
            && !sub.entries[NameKey].identity
            && Identity(sub, Named(name)) == Scalar(Str(name))
  {
    MergeOntoEmpty(Merge(Base, Declare(Empty, x, Bare)));
    NameIsDefaultIdentity(x, name);
  }

  /** Lines 122-128: the subclass inherits `x` as its identity. */
  lemma SubclassInheritsIdentity(x: string, name: string, v: Value)
    requires x != NameKey
    requires v != Nil
    ensures var sub := Merge(SuperclassWithIdentityX(x), Empty);
            var s := Call(sub, Named(name), x, Some(v), true).store;
            && IdentityAttr(sub) == x
            && !sub.entries[NameKey].identity && sub.entries[x].identity
            && Identity(sub, s) == Scalar(v)
  {
    var sub := Merge(SuperclassWithIdentityX(x), Empty);
    MergeOntoEmpty(SuperclassWithIdentityX(x));
    SuperclassShape(x);
    SetOutcome(sub, Named(name), x, v, true);
    SoleIdentityIsScalar(sub, Named(name)[x := v], x);
  }

  /** Identity properties `x`, `y`, both set: the hash holds both. */
  lemma CompositeBothSet(reg: Registry, store: ValueStore, x: string, y: string)
    requires IdentityProperties(reg) == [x, y] && x != y && x in store && y in store
    ensures Identity(reg, store) == Composite(map[x := store[x], y := store[y]])
  {
    CompositeIdentity(reg, store);
    var ids := IdentityProperties(reg);
    assert forall n :: n in ids <==> n == x || n == y;
    SameMap(Identity(reg, store).fields, map[x := store[x], y := store[y]]);
  }

  /**
   * A subclass declaring identity property `y` under a superclass that sees `name` and
   * the identity property `x`: both are identity, `x` first.
   */
  lemma JoinedUnder(sup: Registry, x: string, y: string)
    requires x != NameKey && y != NameKey && x != y && WellFormed(sup)
    requires sup.order == [NameKey, x] && sup.entries.Keys == {NameKey, x}
    requires sup.entries[x] == Bare.(identity := true) && IdentityProperties(sup) == [x]
    ensures var sub := Merge(sup, Declare(Empty, y, Bare.(identity := true)));
            && IdentityProperties(sub) == [x, y]
            && IdentityAttr(sub) == x
            && x in sub.entries && sub.entries[x].kind == AnyType
            && y in sub.entries && sub.entries[y].kind == AnyType
  {
    var d := Bare.(identity := true);
    MergeOntoEmpty(sup);
    SubclassIdentityJoins(sup, Empty, y, d);
    DeclaredOnto(sup, y, d);
    assert [x] + [y] == [x, y];
  }

  /** The subclass registry of lines 130-135. */
  lemma SubclassBothRegistry(x: string, y: string)
    requires x != NameKey && y != NameKey && x != y
    ensures var sub := Merge(SuperclassWithIdentityX(x), Declare(Empty, y, Bare.(identity := true)));
            && IdentityProperties(sub) == [x, y]
            && IdentityAttr(sub) == x
            && x in sub.entries && sub.entries[x].kind == AnyType
            && y in sub.entries && sub.entries[y].kind == AnyType
  {
    SuperclassShape(x);
    SuperclassWellFormed(x);
    JoinedUnder(SuperclassWithIdentityX(x), x, y);
  }

  /**
   * Lines 130-142: `property :y, identity: true` in the subclass joins the inherited `x`
   * in the identity; `identity_attr` stays `x`.
   */
  lemma SubclassIdentityIncludesBoth(x: string, y: string, name: string, vx: Value, vy: Value)
    requires x != NameKey && y != NameKey && x != y
    requires vx != Nil && vy != Nil
    ensures var sub := Merge(SuperclassWithIdentityX(x), Declare(Empty, y, Bare.(identity := true)));
            var s1 := Call(sub, Named(name), x, Some(vx), true).store;
            var s2 := Call(sub, s1, y, Some(vy), true).store;
            && IdentityAttr(sub) == x
            && Identity(sub, s2) == Composite(map[x := vx, y := vy])
  {
    var sub := Merge(SuperclassWithIdentityX(x), Declare(Empty, y, Bare.(identity := true)));
    SubclassBothRegistry(x, y);
    var s1 := Named(name)[x := vx];
    SetOutcome(sub, Named(name), x, vx, true);
    SetOutcome(sub, s1, y, vy, true);
    CompositeBothSet(sub, s1[y := vy], x, y);
  }

  /** The superclass of lines 145-150: as in lines 115-120, then `property :y, String`. */
  function SuperclassWithStringY(x: string, y: string): Registry {
    Merge(Base, Declare(IdentityAttrLocal(Base, Declare(Empty, x, Bare), x), y, Bare.(kind := StringType)))
  }

  lemma SuperclassWithStringYShape(x: string, y: string)
    requires x != NameKey && y != NameKey && x != y
    ensures var sup := SuperclassWithStringY(x, y);
            && WellFormed(sup)
            && sup.order == [NameKey, x, y] && sup.entries.Keys == {NameKey, x, y}
            && sup.entries[NameKey] == NameDescriptor && sup.entries[x] == Bare.(identity := true)
            && sup.entries[y] == Bare.(kind := StringType)
  {
    var local := IdentityAttrLocal(Base, Declare(Empty, x, Bare), x);
    SuperclassShape(x);
    SuperclassLocalWellFormed(x);
    TypedOnto(local, x, y);
  }

  lemma SuperclassLocalWellFormed(x: string)
    ensures WellFormed(IdentityAttrLocal(Base, Declare(Empty, x, Bare), x))
  {
    DeclareWellFormed(Empty, x, Bare);
    BaseWellFormed();
    IdentityAttrSetEffect(Base, Declare(Empty, x, Bare), x);
  }

  /** `property :y, String` in a class whose local layer `local` makes it see `name` and identity `x`. */
  lemma TypedOnto(local: Registry, x: string, y: string)
    requires x != NameKey && y != NameKey && x != y && WellFormed(local)
    requires var m := Merge(Base, local);
             && m.order == [NameKey, x] && m.entries.Keys == {NameKey, x}
             && m.entries[NameKey] == NameDescriptor && m.entries[x] == Bare.(identity := true)
    ensures var sup := Merge(Base, Declare(local, y, Bare.(kind := StringType)));
            && WellFormed(sup)
            && sup.order == [NameKey, x, y] && sup.entries.Keys == {NameKey, x, y}
            && sup.entries[NameKey] == NameDescriptor && sup.entries[x] == Bare.(identity := true)
            && sup.entries[y] == Bare.(kind := StringType)
  {
    var d := Bare.(kind := StringType);
    DeclaredNext(local, [NameKey, x], y, d);
    BaseWellFormed();
    MergeWellFormed(Base, Declare(local, y, d));
    assert [NameKey, x] + [y] == [NameKey, x, y];
  }

  /**
   * A subclass, with nothing declared, of a class that sees `name`, identity `x` and
   * `String`-typed `y`, after `identity_attr :y` in the subclass.
   */
  lemma RetaggedUnder(sup: Registry, x: string, y: string)
    requires x != NameKey && y != NameKey && x != y && WellFormed(sup)
    requires sup.order == [NameKey, x, y] && sup.entries.Keys == {NameKey, x, y}
    requires sup.entries[NameKey] == NameDescriptor && sup.entries[x] == Bare.(identity := true)
    requires sup.entries[y] == Bare.(kind := StringType)
    ensures var sub := Merge(sup, IdentityAttrLocal(sup, Empty, y));
            && StateAttrs(sub) == [x, y]
            && IdentityProperties(sub) == [y] && IdentityAttr(sub) == y
            && x in sub.entries && sub.entries[x].kind == AnyType
            && y in sub.entries && sub.entries[y].kind == StringType
  {
    assert Empty.order == [];
    RetaggedUnderState(sup, x, y);
    IdentityAttrSetSole(sup, Empty, y);
    MergeOntoEmpty(sup);
    IdentityAttrKeepsKind(sup, Empty, y, x);
    IdentityAttrKeepsKind(sup, Empty, y, y);
  }

  lemma RetaggedUnderState(sup: Registry, x: string, y: string)
    requires x != NameKey && y != NameKey && x != y && WellFormed(sup)
    requires sup.order == [NameKey, x, y] && sup.entries.Keys == {NameKey, x, y}
    requires sup.entries[NameKey] == NameDescriptor && sup.entries[x] == Bare.(identity := true)
    requires sup.entries[y] == Bare.(kind := StringType)
    ensures StateAttrs(Merge(sup, IdentityAttrLocal(sup, Empty, y))) == [x, y]
  {
    assert Empty.order == [];
    MergeOntoEmpty(sup);
    StateAttrsOfTwo(sup, x, y);
    IdentityAttrKeepsStateValues(sup, Empty, y, map[]);
  }

  /** `identity_attr :p` changes no property's type. */
  lemma IdentityAttrKeepsKind(inherited: Registry, local: Registry, p: string, n: string)
    requires WellFormed(inherited) && WellFormed(local) && n in Merge(inherited, local).entries
    ensures var after := Merge(inherited, IdentityAttrLocal(inherited, local, p));
            n in after.entries && after.entries[n].kind == Merge(inherited, local).entries[n].kind
  {
    IdentityAttrSetEffect(inherited, local, p);
    RetaggedKeepsDescriptor(Merge(inherited, local), Merge(inherited, IdentityAttrLocal(inherited, local, p)), p, n);
  }

  /** The subclass registry of lines 145-150. */
  lemma SubclassRetagRegistry(x: string, y: string)
    requires x != NameKey && y != NameKey && x != y
    ensures var sub := Merge(SuperclassWithStringY(x, y), IdentityAttrLocal(SuperclassWithStringY(x, y), Empty, y));
            && StateAttrs(sub) == [x, y]
            && IdentityProperties(sub) == [y] && IdentityAttr(sub) == y
            && x in sub.entries && sub.entries[x].kind == AnyType
            && y in sub.entries && sub.entries[y].kind == StringType
  {
    SuperclassWithStringYShape(x, y);
    RetaggedUnder(SuperclassWithStringY(x, y), x, y);
  }

  /**
   * Lines 145-166: `y`, declared `String` in the superclass, and `identity_attr :y` in the
   * subclass: `y` is the subclass's identity, both `x` and `y` stay in its desired state,
   * and `y` keeps its validation.
   */
  lemma SubclassIdentityAttr(x: string, y: string, name: string, vx: Value, vy: string, i: int)
    requires x != NameKey && y != NameKey && x != y
    requires vx != Nil
    ensures var sup := SuperclassWithStringY(x, y);
            var sub := Merge(sup, IdentityAttrLocal(sup, Empty, y));
            var s1 := Call(sub, Named(name), x, Some(vx), true).store;
            var s2 := Call(sub, s1, y, Some(Str(vy)), true).store;
            && StateAttrs(sub) == [x, y]
            && State(sub, s2) == map[x := vx, y := Str(vy)]
            && IdentityAttr(sub) == y
            && Identity(sub, s2) == Scalar(Str(vy))
            && Call(sub, Named(name), y, Some(Int(i)), true) == Step(Err(ValidationFailed(y)), Named(name))
  {
    var sup := SuperclassWithStringY(x, y);
    var sub := Merge(sup, IdentityAttrLocal(sup, Empty, y));
    SubclassRetagRegistry(x, y);
    var s1 := Named(name)[x := vx];
    var s2 := s1[y := Str(vy)];
    SetOutcome(sub, Named(name), x, vx, true);
    SetOutcome(sub, s1, y, Str(vy), true);
    StateOfTwo(sub, s2, x, y);
    SoleIdentityIsScalar(sub, s2, y);
    StringRejectsInt(sub, Named(name), y, i, true);
  }

  // ---------------------------------------------------------------------------
  // The same examples on the resource objects

  /**
   * `resource_class.new(name)`, then `resource.n v`, then `resource.identity`, on a resource
   * of any valid class: the steps on the objects are the accessor and `identity` on the
   * registry the class sees.
   */
  method SetThenIdentity(cls: Resources.ResourceClass, name: string, n: string, v: Value)
    returns (result: Result<Value>, identity: IdentityValue)
    requires cls.Valid()
    ensures var s := Call(cls.Properties(), Named(name), n, Some(v), true);
            result == s.result && identity == Identity(cls.Properties(), s.store)
  {
    var r := new Resources.Resource(cls, name);
    result := r.Call(n, Some(v), true);
    identity := r.Identity();
  }

  /**
   * Lines 61-72 on the objects: a fresh class, `property :x`, `identity_attr :x`, then
   * `resource.x v`. The call returns `:x`, `identity_attr` reports `x` afterwards, the set
   * returns `v`, and `identity` is `v`.
   */
  method IdentityAttrOnObjects(x: string, name: string, v: Value)
    returns (attr: string, reported: string, result: Result<Value>, identity: IdentityValue)
    requires x != NameKey && v != Nil
    ensures attr == x && reported == x
    ensures result == Ok(v) && identity == Scalar(v)
  {
    var c := new Resources.ResourceClass.Root("resource_class");
    c.DeclareProperty(x, Bare);
    attr := c.SetIdentityAttr(x);
    reported := c.GetIdentityAttr();
    result, identity := SetThenIdentity(c, name, x, v);
    IdentityAttrChangesIdentity(x, name, v);
  }

  /**
   * A subclass of `c` made before `identity_attr :p` runs on `c` stays valid and keeps
   * seeing exactly what `c` sees.
   */
  method SubclassThenIdentityAttr(c: Resources.ResourceClass, p: string) returns (sub: Resources.ResourceClass)
    requires c.Valid()
    modifies c
    ensures c.Valid() && c.Inherited() == old(c.Inherited())
    ensures c.local == IdentityAttrLocal(old(c.Inherited()), old(c.local), p) && c.GetIdentityAttr() == p
    ensures sub.Valid() && sub.parent == c && sub.Properties() == c.Properties()
  {
    sub := new Resources.ResourceClass.Subclass(c, "subresource_class");
    var attr := c.SetIdentityAttr(p);
    assert sub.Valid();
    MergeOntoEmpty(c.Properties());
  }

  /**
   * Lines 97-120 on the objects: `property :x` in a fresh class, a subclass of it, then
   * `identity_attr :x` in the superclass. The subclass sees the superclass's new registry.
   * The lazy `let` of the example makes the subclass only after `identity_attr :x`; since a
   * subclass reads its superclass live, the earlier creation here gives the same view.
   */
  method SubclassBeforeIdentityAttr(x: string) returns (sub: Resources.ResourceClass)
    ensures sub.Valid() && sub.Properties() == SuperclassWithIdentityX(x)
  {
    var c := new Resources.ResourceClass.Root("resource_class");
    c.DeclareProperty(x, Bare);
    sub := SubclassThenIdentityAttr(c, x);
  }

  /**
   * Lines 115-129 on the objects: a subclass that exists before `identity_attr :x` runs on
   * its superclass still sees it, since a subclass reads its superclass live. The subclass
   * reports `x`, and a resource of it has the value set on `x` as its `identity`.
   */
  method SubclassSeesLaterIdentityAttr(x: string, name: string, v: Value)
    returns (reported: string, identity: IdentityValue)
    requires x != NameKey && v != Nil
    ensures reported == x && identity == Scalar(v)
  {
    var sub := SubclassBeforeIdentityAttr(x);
    MergeOntoEmpty(SuperclassWithIdentityX(x));
    reported := sub.GetIdentityAttr();
    var result;
    result, identity := SetThenIdentity(sub, name, x, v);
    SubclassInheritsIdentity(x, name, v);
  }
}
