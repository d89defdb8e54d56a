/**
 * Resource classes and resources. A resource class holds the properties declared in it
 * (its local layer) and sees those of its superclass live, merged under its own; a
 * resource holds the values set on it.
 */
module Resources {
  import opened Values
  import opened Properties
  import opened Registries
  import opened Resolvers
  import Accessor

  /**
   * Step two of `identity_attr :p`, name by name over the registry `snapshot` seen after
   * step one: each other identity property is re-declared in `layer` with `identity: false`.
   */
  method DemoteAll(snapshot: Registry, promoted: Registry, p: string) returns (layer: Registry)
    ensures layer == Demote(snapshot, promoted, snapshot.order, p)
  {
    layer := promoted;
    var i := 0;
    while i < |snapshot.order|
      invariant 0 <= i <= |snapshot.order|
      invariant layer == Demote(snapshot, promoted, snapshot.order[..i], p)
    {
      var n := snapshot.order[i];
      if n in snapshot.entries && snapshot.entries[n].identity && n != p {
        layer := Declare(layer, n, snapshot.entries[n].(identity := false));
      }
      DemoteSnoc(snapshot, promoted, snapshot.order[..i], n, p);
      assert snapshot.order[..i] + [n] == snapshot.order[..i + 1];
      i := i + 1;
    }
    assert snapshot.order[..i] == snapshot.order;
  }

  /** `identity_attr :p` on the local layer `local` of a class that inherits `inherited`. */
  method RetagLayer(inherited: Registry, local: Registry, p: string) returns (layer: Registry)
    ensures layer == IdentityAttrLocal(inherited, local, p)
  {
    var promoted := local;
    var effective := Merge(inherited, local);
    if p !in effective.entries {
      promoted := Declare(promoted, p, Implicit);
    } else if !effective.entries[p].identity {
      promoted := Declare(promoted, p, effective.entries[p].(identity := true));
    }
    layer := DemoteAll(Merge(inherited, promoted), promoted, p);
  }

  /** `Class.new(parent) { resource_name ... }`: a resource class. */
  class ResourceClass {
    /** The superclass; `null` for a direct subclass of Chef::Resource. */
    const parent: ResourceClass?
    const resourceName: string
    /** The number of resource classes above this one. */
    ghost const depth: nat
    /** Every resource class above this one. */
    ghost const Ancestors: set<ResourceClass>
    /** The properties declared in this class itself, after every later re-declaration. */
    var local: Registry

    /** The superclass chain is finite and `Ancestors` lists it. */
    ghost predicate Linked()
      decreases depth
    {
      if parent == null then depth == 0 && Ancestors == {}
      else parent.depth < depth && Ancestors == {parent} + parent.Ancestors && parent.Linked()
    }

    ghost predicate Valid()
      reads this, Ancestors
      decreases depth
    {
      && Linked()
      && WellFormed(local)
      && (parent != null ==> parent.Valid())
    }

    lemma {:induction false} AncestorsAbove()
      requires Linked()
      ensures forall c :: c in Ancestors ==> c.depth < depth
      decreases depth
    {
      if parent != null {
        parent.AncestorsAbove();
      }
    }

    /** A class is not its own ancestor, so changing it leaves what it inherits alone. */
    lemma NotOwnAncestor()
      requires Linked()
      ensures this !in Ancestors
    {
      AncestorsAbove();
    }

    /** What the class inherits: its superclass's properties, or those of Chef::Resource. */
    function Inherited(): Registry
      requires Linked() && (parent != null ==> parent.Valid())
      reads Ancestors
      decreases depth, 0
    {
      if parent == null then Base else parent.Properties()
    }

    /** `properties`: the inherited properties with this class's own merged over them. */
    function Properties(): Registry
      requires Valid()
      reads this, Ancestors
      decreases depth, 1
    {
      Merge(Inherited(), local)
    }

    /** Every registry a valid class sees is well formed. */
    lemma {:induction false} PropertiesWellFormed()
      requires Valid()
      ensures WellFormed(Inherited()) && WellFormed(Properties())
      decreases depth
    {
      if parent == null {
        BaseWellFormed();
      } else {
        parent.PropertiesWellFormed();
      }
      MergeWellFormed(Inherited(), local);
    }

    /** `identity_attr` with no argument. */
    function GetIdentityAttr(): string
      requires Valid()
      reads this, Ancestors
    {
      IdentityAttr(Properties())
    }

    /** `state_attrs`. */
    function GetStateAttrs(): seq<string>
      requires Valid()
      reads this, Ancestors
    {
      StateAttrs(Properties())
    }

    /** A direct subclass of Chef::Resource, with nothing declared yet. */
    constructor Root(name: string)
      ensures Valid()
      ensures parent == null && resourceName == name && local == Empty
      ensures Properties() == Base
    {
      parent := null;
      resourceName := name;
      depth := 0;
      Ancestors := {};
      local := Empty;
      new;
      MergeOntoEmpty(Base);
      assert Properties() == Base;
    }

    /** A subclass of `p`, with nothing declared yet: it sees exactly what `p` sees. */
    constructor Subclass(p: ResourceClass, name: string)
      requires p.Valid()
      ensures Valid()
      ensures parent == p && resourceName == name && local == Empty
      ensures Properties() == p.Properties()
    {
      parent := p;
      resourceName := name;
      depth := p.depth + 1;
      Ancestors := {p} + p.Ancestors;
      local := Empty;
      new;
      MergeOntoEmpty(p.Properties());
    }

    /** `property x, ...`: (re)declares `x` in this class. */
    method DeclareProperty(x: string, d: Property)
      requires Valid()
      modifies this
      ensures Valid()
      ensures local == Declare(old(local), x, d)
      ensures Inherited() == old(Inherited())
      ensures Properties() == Declare(old(Properties()), x, d)
    {
      NotOwnAncestor();
      var inherited := Inherited();
      var next := Declare(local, x, d);
      DeclareWellFormed(local, x, d);
      MergeDeclare(inherited, local, x, d);
      local := next;
      assert Inherited() == inherited;
    }

    /**
     * `identity_attr :p`: declare `p` identity here (synthesizing it if unknown), then
     * re-declare every other identity property this class sees with `identity: false`.
     * Returns `p`, which `identity_attr` then reports.
     */
    method SetIdentityAttr(p: string) returns (attr: string)
      requires Valid()
      modifies this
      ensures Valid()
      ensures local == IdentityAttrLocal(Inherited(), old(local), p)
      ensures Inherited() == old(Inherited())
      ensures attr == p && GetIdentityAttr() == p
    {
      NotOwnAncestor();
      PropertiesWellFormed();
      var inherited := Inherited();
      ghost var before := local;
      local := RetagLayer(inherited, local, p);
      assert Inherited() == inherited;
      assert local == IdentityAttrLocal(inherited, before, p);
      IdentityAttrSetSole(inherited, before, p);
      attr := p;
    }
  }

  /** `resource_class.new(name)`: one resource and the values set on it. */
  class Resource {
    const cls: ResourceClass
    var store: ValueStore

    constructor (c: ResourceClass, name: string)
      ensures cls == c && store == map[NameKey := Str(name)]
    {
      cls := c;
      store := map[NameKey := Str(name)];
    }

    /** `resource.n` or `resource.n arg`. */
    method Call(n: string, arg: Option<Value>, deprecationErrors: bool) returns (r: Result<Value>)
      requires cls.Valid()
      modifies this
      ensures var s := Accessor.Call(cls.Properties(), old(store), n, arg, deprecationErrors);
              r == s.result && store == s.store
    {
      var reg := cls.Properties();
      var s := Accessor.Call(reg, store, n, arg, deprecationErrors);
      r := s.result;
      store := s.store;
      assert cls.Properties() == reg;
    }

    /** `resource.n = v`. */
    method Assign(n: string, v: Value) returns (r: Result<Value>)
      requires cls.Valid()
      modifies this
      ensures var s := Accessor.Assign(cls.Properties(), old(store), n, v);
              r == s.result && store == s.store
    {
      var reg := cls.Properties();
      var s := Accessor.Assign(reg, store, n, v);
      r := s.result;
      store := s.store;
      assert cls.Properties() == reg;
    }

    /** `resource.identity`. */
    function Identity(): IdentityValue
      requires cls.Valid()
      reads this, cls, cls.Ancestors
    {
      Resolvers.Identity(cls.Properties(), store)
    }

    /** `resource.state`. */
    function State(): map<string, Value>
      requires cls.Valid()
      reads this, cls, cls.Ancestors
    {
      Resolvers.State(cls.Properties(), store)
    }
  }
}
