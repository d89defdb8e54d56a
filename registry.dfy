/**
 * The property registry of a resource class: an ordered map from property name to
 * descriptor. A subclass sees its parent's registry merged with its own local layer;
 * `identity_attr :p` rewrites identity flags by re-declaring properties in the local layer.
 */
module Registries {
  import opened Values
  import opened Properties

  /** No name occurs twice; stated on the last element so that it unfolds one step at a time. */
  ghost predicate NoDups(s: seq<string>)
    decreases |s|
  {
    s == [] || (NoDups(s[..|s| - 1]) && s[|s| - 1] !in s[..|s| - 1])
  }

  lemma NoDupsSnoc(s: seq<string>, x: string)
    ensures NoDups(s) && x !in s ==> NoDups(s + [x])
  {
    assert (s + [x])[..|s|] == s;
  }

  lemma {:induction false} NoDupsConcat(a: seq<string>, b: seq<string>)
    requires NoDups(a) && NoDups(b)
    requires forall n :: n in a ==> n !in b
    ensures NoDups(a + b)
    decreases |b|
  {
    if b == [] {
      assert a + b == a;
    } else {
      var prefix, last := b[..|b| - 1], b[|b| - 1];
      assert forall n :: n in b <==> n in prefix || n == last;
      NoDupsConcat(a, prefix);
      assert a + b == (a + prefix) + [last];
      NoDupsSnoc(a + prefix, last);
    }
  }

  /** An ordered map: `order` lists the names of `entries` in declaration order. */
  datatype Registry = Registry(order: seq<string>, entries: map<string, Property>)

  ghost predicate WellFormed(r: Registry) {
    && NoDups(r.order)
    && (forall n :: n in r.entries <==> n in r.order)
  }

  const Empty: Registry := Registry([], map[])

  /** The properties Chef::Resource itself declares: `name` alone. */
  const Base: Registry := Registry([NameKey], map[NameKey := NameDescriptor])

  lemma BaseWellFormed()
    ensures WellFormed(Base)
  {
    assert Base.order[..0] == [];
  }

  /**
   * `property x, ...` in one class: the latest declaration of a name replaces the
   * earlier one and keeps its position; a new name is appended.
   */
  function Declare(r: Registry, x: string, d: Property): Registry {
    Registry(if x in r.entries then r.order else r.order + [x], r.entries[x := d])
  }

  lemma DeclareWellFormed(r: Registry, x: string, d: Property)
    requires WellFormed(r)
    ensures WellFormed(Declare(r, x, d))
  {
    NoDupsSnoc(r.order, x);
  }

  /** The names of `names` that are not keys of `taken`, in their order. */
  function Fresh(names: seq<string>, taken: map<string, Property>): (r: seq<string>)
    ensures forall n {:trigger n in r} :: n in r <==> n in names && n !in taken
    ensures NoDups(names) ==> NoDups(r)
    decreases |names|
  {
    if names == [] then []
    else
      var prefix, last := names[..|names| - 1], names[|names| - 1];
      assert forall n :: n in names <==> n in prefix || n == last;
      var r := Fresh(prefix, taken);
      if last in taken then r
      else
        NoDupsSnoc(r, last);
        r + [last]
  }

  lemma FreshSnoc(names: seq<string>, x: string, taken: map<string, Property>)
    ensures Fresh(names + [x], taken) == Fresh(names, taken) + (if x in taken then [] else [x])
  {
    assert (names + [x])[..|names|] == names;
  }

  /**
   * The registry a subclass sees (`superclass.properties.merge(local)`): inherited
   * names first in their inherited order, then the names only the subclass declares,
   * in its declaration order; a local declaration of an inherited name overrides it.
   */
  function Merge(inherited: Registry, local: Registry): Registry {
    Registry(inherited.order + Fresh(local.order, inherited.entries), inherited.entries + local.entries)
  }

  lemma MergeWellFormed(inherited: Registry, local: Registry)
    requires WellFormed(inherited) && WellFormed(local)
    ensures WellFormed(Merge(inherited, local))
  {
    NoDupsConcat(inherited.order, Fresh(local.order, inherited.entries));
  }

  /**
   * Lookup in a merged registry: the local entry wins, else the inherited one, and the
   * inherited order is kept as a prefix (an override keeps the ancestor's position).
   */
  lemma MergeOverrides(inherited: Registry, local: Registry, n: string)
    requires WellFormed(inherited) && WellFormed(local)
    ensures var m := Merge(inherited, local);
            && (n in m.order <==> n in inherited.order || n in local.order)
            && (n in local.entries ==> m.entries[n] == local.entries[n])
            && (n !in local.entries && n in inherited.entries ==> m.entries[n] == inherited.entries[n])
            && m.order[..|inherited.order|] == inherited.order
  {
    var m := Merge(inherited, local);
    MergeWellFormed(inherited, local);
    assert m.order[..|inherited.order|] == inherited.order;
  }

  /** A class with nothing declared sees what it inherits. */
  lemma MergeOntoEmpty(inherited: Registry)
    ensures Merge(inherited, Empty) == inherited
  {
    assert inherited.order + [] == inherited.order;
  }

  lemma MergeDeclareOrder(inherited: Registry, local: Registry, x: string, d: Property)
    ensures Merge(inherited, Declare(local, x, d)).order == Declare(Merge(inherited, local), x, d).order
  {
    if x !in local.entries {
      FreshSnoc(local.order, x, inherited.entries);
      assert inherited.order + (Fresh(local.order, inherited.entries) + [x])
          == (inherited.order + Fresh(local.order, inherited.entries)) + [x];
    }
  }

  lemma MergeDeclareEntries(inherited: Registry, local: Registry, x: string, d: Property)
    ensures Merge(inherited, Declare(local, x, d)).entries == Declare(Merge(inherited, local), x, d).entries
  {
    assert inherited.entries + local.entries[x := d] == (inherited.entries + local.entries)[x := d];
  }

  /** Declaring into the local layer is declaring into the merged registry. */
  lemma MergeDeclare(inherited: Registry, local: Registry, x: string, d: Property)
    ensures Merge(inherited, Declare(local, x, d)) == Declare(Merge(inherited, local), x, d)
  {
    MergeDeclareOrder(inherited, local, x, d);
    MergeDeclareEntries(inherited, local, x, d);
  }

  /** The two flags the identity and state views are computed from. */
  datatype Flag = IdentityFlag | DesiredStateFlag

  predicate Has(p: Property, f: Flag) {
    match f
    case IdentityFlag => p.identity
    case DesiredStateFlag => p.desiredState
  }

  /** The names of `names` whose descriptor carries flag `f`, in order. */
  function Flagged(names: seq<string>, entries: map<string, Property>, f: Flag): (r: seq<string>)
    ensures forall n {:trigger n in r} :: n in r <==> n in names && n in entries && Has(entries[n], f)
    ensures NoDups(names) ==> NoDups(r)
    decreases |names|
  {
    if names == [] then []
    else
      var prefix, last := names[..|names| - 1], names[|names| - 1];
      assert forall n :: n in names <==> n in prefix || n == last;
      var r := Flagged(prefix, entries, f);
      if last in entries && Has(entries[last], f) then
        NoDupsSnoc(r, last);
        r + [last]
      else r
  }

  lemma FlaggedSnoc(names: seq<string>, x: string, entries: map<string, Property>, f: Flag)
    ensures Flagged(names + [x], entries, f)
         == Flagged(names, entries, f) + (if x in entries && Has(entries[x], f) then [x] else [])
  {
    assert (names + [x])[..|names|] == names;
  }

  /** `r` lists names of `names` in the order they come in `names`. */
  ghost predicate InOrder(r: seq<string>, names: seq<string>) {
    forall i, j :: 0 <= i < j < |r| ==> Before(names, r[i], r[j])
  }

  /** `a` comes before `b` in `names`. */
  ghost predicate Before(names: seq<string>, a: string, b: string) {
    exists k, l :: 0 <= k < l < |names| && names[k] == a && names[l] == b
  }

  /** Appending a name to `names` keeps every order `names` already shows. */
  lemma InOrderExtend(r: seq<string>, names: seq<string>, x: string)
    requires InOrder(r, names)
    ensures InOrder(r, names + [x])
  {
    forall i, j | 0 <= i < j < |r|
      ensures Before(names + [x], r[i], r[j])
    {
      var k, l :| 0 <= k < l < |names| && names[k] == r[i] && names[l] == r[j];
      assert (names + [x])[k] == names[k] && (names + [x])[l] == names[l];
    }
  }

  /** A name appended to both lists comes after everything `r` took from `names`. */
  lemma InOrderSnoc(r: seq<string>, names: seq<string>, x: string)
    requires InOrder(r, names)
    requires forall n :: n in r ==> n in names
    ensures InOrder(r + [x], names + [x])
  {
    var r', names' := r + [x], names + [x];
    forall i, j | 0 <= i < j < |r'|
      ensures Before(names', r'[i], r'[j])
    {
      assert r'[i] == r[i] && r[i] in r;
      var k :| 0 <= k < |names| && names[k] == r[i];
      if j < |r| {
        var k, l :| 0 <= k < l < |names| && names[k] == r[i] && names[l] == r[j];
        assert names'[k] == names[k] && names'[l] == names[l] && r'[j] == r[j];
      } else {
        assert names'[k] == names[k] && names'[|names|] == x == r'[j];
      }
    }
  }

  /**
   * `Flagged` keeps the order of `names`: of two names it returns, the earlier one also
   * comes earlier in `names`.
   */
  lemma {:induction false} FlaggedInOrder(names: seq<string>, entries: map<string, Property>, f: Flag)
    ensures InOrder(Flagged(names, entries, f), names)
    decreases |names|
  {
    if names != [] {
      var prefix, last := names[..|names| - 1], names[|names| - 1];
      var rest := Flagged(prefix, entries, f);
      assert names == prefix + [last];
      FlaggedInOrder(prefix, entries, f);
      if last in entries && Has(entries[last], f) {
        InOrderSnoc(rest, prefix, last);
      } else {
        InOrderExtend(rest, prefix, last);
      }
    }
  }

  /** Only the flags of the listed names matter. */
  lemma {:induction false} FlaggedCongruence(names: seq<string>, e1: map<string, Property>, e2: map<string, Property>, f: Flag)
    requires forall n :: n in names ==> (n in e1 && Has(e1[n], f)) == (n in e2 && Has(e2[n], f))
    ensures Flagged(names, e1, f) == Flagged(names, e2, f)
    decreases |names|
  {
    if names != [] {
      var prefix := names[..|names| - 1];
      assert forall n :: n in prefix ==> n in names;
      FlaggedCongruence(prefix, e1, e2, f);
    }
  }

  /** `n` is the first name of `names` whose descriptor carries `f`. */
  ghost predicate FirstFlagged(names: seq<string>, entries: map<string, Property>, f: Flag, n: string) {
    exists k :: 0 <= k < |names| && names[k] == n && n in entries && Has(entries[n], f) &&
      forall j :: 0 <= j < k ==> !(names[j] in entries && Has(entries[names[j]], f))
  }

  /** The first flagged name is the first name of `names` that carries the flag. */
  lemma {:induction false} FlaggedFirst(names: seq<string>, entries: map<string, Property>, f: Flag)
    requires Flagged(names, entries, f) != []
    ensures FirstFlagged(names, entries, f, Flagged(names, entries, f)[0])
    decreases |names|
  {
    var prefix, last := names[..|names| - 1], names[|names| - 1];
    var rest := Flagged(prefix, entries, f);
    var first := Flagged(names, entries, f)[0];
    if rest != [] {
      FlaggedFirst(prefix, entries, f);
      var k :| 0 <= k < |prefix| && prefix[k] == rest[0] && rest[0] in entries && Has(entries[rest[0]], f) &&
                forall j :: 0 <= j < k ==> !(prefix[j] in entries && Has(entries[prefix[j]], f));
      assert first == rest[0];
      assert names[k] == prefix[k];
      forall j | 0 <= j < k ensures !(names[j] in entries && Has(entries[names[j]], f)) {
        assert names[j] == prefix[j];
      }
    } else {
      assert Flagged(names, entries, f) == [last];
      var k := |names| - 1;
      forall j | 0 <= j < k ensures !(names[j] in entries && Has(entries[names[j]], f)) {
        assert names[j] == prefix[j] && prefix[j] in prefix;
        assert prefix[j] !in rest;
      }
      assert names[k] == first;
    }
  }

  /** The declared properties flagged `identity: true`, in declaration order. */
  function IdentityProperties(r: Registry): seq<string> {
    Flagged(r.order, r.entries, IdentityFlag)
  }

  /** `state_attrs`: the properties flagged `desired_state: true`, in declaration order. */
  function StateAttrs(r: Registry): seq<string> {
    Flagged(r.order, r.entries, DesiredStateFlag)
  }

  /** Some declared property is flagged `identity: true`. */
  ghost predicate HasIdentity(r: Registry) {
    exists k :: 0 <= k < |r.order| && r.order[k] in r.entries && r.entries[r.order[k]].identity
  }

  /** `identity_attr` with no argument: the first identity property, else `:name`. */
  function IdentityAttr(r: Registry): (a: string)
    ensures !HasIdentity(r) ==> a == NameKey
    ensures HasIdentity(r) ==> FirstFlagged(r.order, r.entries, IdentityFlag, a)
  {
    var ids := IdentityProperties(r);
    if ids == [] then
      assert !HasIdentity(r) by {
        forall k | 0 <= k < |r.order| && r.order[k] in r.entries ensures !r.entries[r.order[k]].identity {
          assert r.order[k] in r.order && r.order[k] !in ids;
        }
      }
      NameKey
    else
      FlaggedFirst(r.order, r.entries, IdentityFlag);
      ids[0]
  }

  /** Step one of `identity_attr :p`: make `p` an identity property of this class, synthesizing it if unknown. */
  function Promote(effective: Registry, local: Registry, p: string): Registry {
    if p !in effective.entries then Declare(local, p, Implicit)
    else if !effective.entries[p].identity then Declare(local, p, effective.entries[p].(identity := true))
    else local
  }

  /** Whether step two of `identity_attr :p` turns the identity flag of `n` off. */
  predicate Demotes(snapshot: Registry, n: string, p: string) {
    n in snapshot.entries && snapshot.entries[n].identity && n != p
  }

  /** Step two, one name of the snapshot: re-declare another identity property with `identity: false`. */
  function DemoteOne(snapshot: Registry, local: Registry, n: string, p: string): Registry {
    if Demotes(snapshot, n, p) then Declare(local, n, snapshot.entries[n].(identity := false)) else local
  }

  /** Step two over the names `names` of the snapshot, in order. */
  function Demote(snapshot: Registry, local: Registry, names: seq<string>, p: string): (r: Registry)
    ensures WellFormed(local) ==> WellFormed(r)
    decreases |names|
  {
    if names == [] then local
    else
      var r := Demote(snapshot, local, names[..|names| - 1], p);
      var n := names[|names| - 1];
      if Demotes(snapshot, n, p) then
        assert WellFormed(r) ==> WellFormed(Declare(r, n, snapshot.entries[n].(identity := false))) by {
          if WellFormed(r) { DeclareWellFormed(r, n, snapshot.entries[n].(identity := false)); }
        }
        DemoteOne(snapshot, r, n, p)
      else DemoteOne(snapshot, r, n, p)
  }

  lemma DemoteSnoc(snapshot: Registry, local: Registry, names: seq<string>, n: string, p: string)
    ensures Demote(snapshot, local, names + [n], p) == DemoteOne(snapshot, Demote(snapshot, local, names, p), n, p)
  {
    assert (names + [n])[..|names|] == names;
  }

  /** The local layer of a class after `identity_attr :p`. */
  function IdentityAttrLocal(inherited: Registry, local: Registry, p: string): (r: Registry)
    ensures WellFormed(local) ==> WellFormed(r)
  {
    assert WellFormed(local) ==> WellFormed(Promote(Merge(inherited, local), local, p)) by {
      if WellFormed(local) {
        DeclareWellFormed(local, p, Implicit);
        if p in Merge(inherited, local).entries {
          DeclareWellFormed(local, p, Merge(inherited, local).entries[p].(identity := true));
        }
      }
    }
    var promoted := Promote(Merge(inherited, local), local, p);
    var snapshot := Merge(inherited, promoted);
    Demote(snapshot, promoted, snapshot.order, p)
  }

  /** `m'` is `m` with the names of `names` that step two demotes re-declared without the identity flag. */
  ghost predicate DemotedFrom(m: Registry, m': Registry, snapshot: Registry, names: seq<string>, p: string) {
    && m'.order == m.order
    && m'.entries.Keys == m.entries.Keys
    && forall n :: n in m.entries ==>
         m'.entries[n] == if n in names && Demotes(snapshot, n, p)
                          then snapshot.entries[n].(identity := false) else m.entries[n]
  }

  lemma {:induction false} DemoteMerged(inherited: Registry, snapshot: Registry, local: Registry, names: seq<string>, p: string)
    requires forall n :: n in names ==> n in Merge(inherited, local).entries
    ensures DemotedFrom(Merge(inherited, local), Merge(inherited, Demote(snapshot, local, names, p)), snapshot, names, p)
    decreases |names|
  {
    if names != [] {
      var prefix, last := names[..|names| - 1], names[|names| - 1];
      assert names == prefix + [last];
      DemoteMerged(inherited, snapshot, local, prefix, p);
      var mid := Demote(snapshot, local, prefix, p);
      if Demotes(snapshot, last, p) {
        MergeDeclare(inherited, mid, last, snapshot.entries[last].(identity := false));
      }
      DemotedStep(Merge(inherited, local), Merge(inherited, mid), Merge(inherited, DemoteOne(snapshot, mid, last, p)),
                  snapshot, prefix, last, p);
    }
  }

  lemma DemotedStep(m: Registry, mid: Registry, m': Registry, snapshot: Registry, prefix: seq<string>, last: string, p: string)
    requires DemotedFrom(m, mid, snapshot, prefix, p) && last in m.entries
    requires m' == if Demotes(snapshot, last, p) then Declare(mid, last, snapshot.entries[last].(identity := false)) else mid
    ensures DemotedFrom(m, m', snapshot, prefix + [last], p)
  {
    assert forall n :: n in prefix + [last] <==> n in prefix || n == last;
  }

  /** Step one seen through the merge: promoting in the local layer promotes in the merged registry. */
  lemma PromoteMerged(inherited: Registry, local: Registry, p: string)
    ensures var before := Merge(inherited, local);
            Merge(inherited, Promote(before, local, p)) == Promote(before, before, p)
  {
    var before := Merge(inherited, local);
    if p !in before.entries {
      MergeDeclare(inherited, local, p, Implicit);
    } else if !before.entries[p].identity {
      MergeDeclare(inherited, local, p, before.entries[p].(identity := true));
    }
  }

  /**
   * `after` is `before` with `p` made an identity property (synthesized with no type if
   * it was unknown) and the identity flag of every other property off; the order and
   * every other part of every descriptor are kept.
   */
  ghost predicate Retagged(before: Registry, after: Registry, p: string) {
    && after.order == (if p in before.entries then before.order else before.order + [p])
    && after.entries.Keys == before.entries.Keys + {p}
    && after.entries[p] == (if p in before.entries then before.entries[p].(identity := true) else Implicit)
    && forall n :: n in before.entries && n != p ==> after.entries[n] == before.entries[n].(identity := false)
  }

  lemma PromotedThenDemoted(before: Registry, after: Registry, p: string)
    requires WellFormed(before)
    requires var snapshot := Promote(before, before, p);
             DemotedFrom(snapshot, after, snapshot, snapshot.order, p)
    ensures Retagged(before, after, p)
  {
    var snapshot := Promote(before, before, p);
    forall n | n in before.entries && n != p
      ensures after.entries[n] == before.entries[n].(identity := false)
    {
      assert n in snapshot.entries && snapshot.entries[n] == before.entries[n];
      assert n in snapshot.order;
    }
  }

  /** What `identity_attr :p` does to the registry a class sees. */
  lemma IdentityAttrSetEffect(inherited: Registry, local: Registry, p: string)
    requires WellFormed(inherited) && WellFormed(local)
    ensures Retagged(Merge(inherited, local), Merge(inherited, IdentityAttrLocal(inherited, local, p)), p)
  {
    var before := Merge(inherited, local);
    MergeWellFormed(inherited, local);
    var promoted := Promote(before, local, p);
    PromoteMerged(inherited, local, p);
    var snapshot := Merge(inherited, promoted);
    assert WellFormed(snapshot) by {
      DeclareWellFormed(before, p, Implicit);
      if p in before.entries {
        DeclareWellFormed(before, p, before.entries[p].(identity := true));
      }
    }
    DemoteMerged(inherited, snapshot, promoted, snapshot.order, p);
    PromotedThenDemoted(before, Merge(inherited, IdentityAttrLocal(inherited, local, p)), p);
  }

  lemma NoDupsEnds(s: seq<string>)
    requires NoDups(s) && |s| > 1
    ensures s[0] != s[|s| - 1] && s[0] in s && s[|s| - 1] in s
  {
    assert s[0] == s[..|s| - 1][0];
  }

  lemma SingletonOf(s: seq<string>, x: string)
    requires NoDups(s) && forall n :: n in s <==> n == x
    ensures s == [x]
  {
    assert x in s;
    if |s| > 1 {
      NoDupsEnds(s);
      assert false;
    }
  }

  lemma RetaggedSole(before: Registry, after: Registry, p: string)
    requires WellFormed(after) && Retagged(before, after, p)
    ensures IdentityProperties(after) == [p] && IdentityAttr(after) == p
  {
    var ids := IdentityProperties(after);
    forall n ensures n in ids <==> n == p {
      if n in after.entries && n != p {
        assert !after.entries[n].identity;
      }
    }
    SingletonOf(ids, p);
  }

  lemma RetaggedKeepsState(before: Registry, after: Registry, p: string)
    requires WellFormed(before) && Retagged(before, after, p)
    ensures StateAttrs(after) == if p in before.entries then StateAttrs(before) else StateAttrs(before) + [p]
  {
    FlaggedCongruence(before.order, before.entries, after.entries, DesiredStateFlag);
    if p !in before.entries {
      FlaggedSnoc(before.order, p, after.entries, DesiredStateFlag);
    }
  }

  /** After `identity_attr :p`, `p` is the only identity property and `identity_attr` reports it. */
  lemma IdentityAttrSetSole(inherited: Registry, local: Registry, p: string)
    requires WellFormed(inherited) && WellFormed(local)
    ensures var after := Merge(inherited, IdentityAttrLocal(inherited, local, p));
            IdentityProperties(after) == [p] && IdentityAttr(after) == p
  {
    IdentityAttrSetEffect(inherited, local, p);
    MergeWellFormed(inherited, IdentityAttrLocal(inherited, local, p));
    RetaggedSole(Merge(inherited, local), Merge(inherited, IdentityAttrLocal(inherited, local, p)), p);
  }

  /**
   * `identity_attr :p` leaves `state_attrs` alone: identity and desired state are
   * independent, except that a synthesized `p` joins the desired state at the end.
   */
  lemma IdentityAttrSetKeepsState(inherited: Registry, local: Registry, p: string)
    requires WellFormed(inherited) && WellFormed(local)
    ensures var before := Merge(inherited, local);
            var after := Merge(inherited, IdentityAttrLocal(inherited, local, p));
            StateAttrs(after) == if p in before.entries then StateAttrs(before) else StateAttrs(before) + [p]
  {
    IdentityAttrSetEffect(inherited, local, p);
    MergeWellFormed(inherited, local);
    RetaggedKeepsState(Merge(inherited, local), Merge(inherited, IdentityAttrLocal(inherited, local, p)), p);
  }

  /**
   * A property declared with `identity: true` on a subclass joins the identity
   * properties it inherits, after them, and `identity_attr` still reports the first.
   */
  lemma SubclassIdentityJoins(inherited: Registry, local: Registry, x: string, d: Property)
    requires WellFormed(inherited) && WellFormed(local)
    requires d.identity && x !in Merge(inherited, local).entries
    ensures var before := Merge(inherited, local);
            var after := Merge(inherited, Declare(local, x, d));
            && IdentityProperties(after) == IdentityProperties(before) + [x]
            && (IdentityProperties(before) != [] ==> IdentityAttr(after) == IdentityAttr(before))
  {
    var before := Merge(inherited, local);
    MergeWellFormed(inherited, local);
    MergeDeclare(inherited, local, x, d);
    var after := Declare(before, x, d);
    FlaggedSnoc(before.order, x, after.entries, IdentityFlag);
    FlaggedCongruence(before.order, before.entries, after.entries, IdentityFlag);
  }
}
