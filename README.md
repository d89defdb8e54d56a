# Chef resource properties: identity, desired state and the property accessor

The model covers how a Chef resource class declares properties and how a resource
reports on them. It is built from two RSpec files of the Chef repository,
`spec/unit/resource_property_spec.rb` and `spec/unit/resource_property_state_spec.rb`.
Their examples fix the behaviour of `Chef::Resource.property`, `identity_attr`,
`identity`, `state_attrs` and `state`. The model also covers the helpers both files
define for themselves: `english_join`, `with_property` and `NewResourceNamer`.

- **Values** (`values.dfy`). The three Ruby values the tests store (nil, a String,
  an Integer), and the exceptions an accessor raises.
- **Properties** (`properties.dfy`). A property descriptor holds:
  - the type (`String` or none);
  - the default;
  - the `identity`, `desired_state` and `name_property` flags.

  The file also holds the built-in `name` descriptor and the `String` validation.
- **Registry** (`registry.dfy`). The properties a class sees, as an ordered map.
  - A subclass sees its superclass's registry with its own declarations merged on top.
  - `identity_attr` reports the first identity property, or `:name` when there is none.
  - `identity_attr :p` works on the class's own layer. Unless `p` already is an
    identity property, it declares `p` as identity there, synthesizing `p` if no such
    property exists. Then, for every other identity
    property the class sees, it adds a copy of that property to the same layer with
    `identity: false`.
- **Resolvers** (`resolvers.dfy`). What a get returns, `identity` and `state`, computed
  from the registry and the values set on one resource.
  - A get falls back from the set value to the name (for a `name_property`), then to
    the default, then to nil.
  - `identity` is a single value when exactly one property makes it up. Otherwise it is
    a hash of the identity properties that are set.
- **Accessor** (`accessor.dfy`). The accessor every property gets:
  - `x` reads;
  - `x v` validates and sets;
  - `x nil` is a deprecated read that raises while deprecation warnings are errors;
  - `x = v` sets, nil included.
- **Resources** (`resources.dfy`). The classes with mutable state:
  - `ResourceClass` has a superclass pointer and a local layer that `property` and
    `identity_attr :p` update in place. It sees its superclass live.
  - `Resource` holds the values set on one resource.
  - `DemoteAll` is the loop that re-declares the demoted properties.
- **SpecHelpers** (`helpers.dfy`). `english_join`, `with_property` and the name counter.
- **Scenarios** (`scenarios.dfy`). The examples of both files, each as a lemma about the
  registries and stores. The names of the properties are parameters, distinct from each
  other and from `name`. The values set are any non-nil values, except where an example
  needs a particular kind: a String for a `String` property, an Integer where
  validation must fail. A few methods replay examples on the class and resource objects.

## Model

| member | source | states |
|---|---|---|
| Properties.Validate | spec/unit/resource_property_state_spec.rb:173-178 | A value passes exactly when the property is untyped or the value is not an Integer. A passing value is returned unchanged; a rejected one raises ValidationFailed for that property. |
| Registries.Declare | spec/unit/resource_property_state_spec.rb:43-46 | `property x, ...` in one layer: `x` is appended to the order when new and its descriptor replaced. Its meaning is carried by Registries.DeclareWellFormed (a well-formed layer stays well formed) and Registries.MergeDeclare (declaring in a subclass's layer declares in what it sees). |
| Registries.DeclareWellFormed | spec/unit/resource_property_state_spec.rb:43-46 | Declaring a property keeps a registry well formed: no name is listed twice and the order lists exactly the declared names. |
| Registries.Merge | spec/unit/resource_property_state_spec.rb:97-129 | What a subclass sees: the inherited registry with the subclass's own layer on top. Its contract is Registries.MergeOverrides, Registries.MergeDeclare, Registries.MergeWellFormed and Registries.MergeOntoEmpty. |
| Registries.MergeWellFormed | spec/unit/resource_property_state_spec.rb:97-129 | Merging two well-formed layers gives a well-formed registry. |
| Registries.MergeOntoEmpty | spec/unit/resource_property_state_spec.rb:108-113 | A subclass that declares nothing sees exactly its superclass's registry. |
| Registries.Flagged | spec/unit/resource_property_state_spec.rb:91 | The names carrying a flag are exactly the listed, declared names whose descriptor has that flag, and no name comes twice. Registries.FlaggedInOrder adds that their order is the declaration order. |
| Registries.FlaggedInOrder | spec/unit/resource_property_state_spec.rb:152-157 | The flagged names come in the order they are declared: any two of them appear in that order among the declared names. |
| Registries.IdentityProperties | spec/unit/resource_property_state_spec.rb:249-254 | The identity properties in declaration order. Registries.IdentityAttr, Resolvers.SoleIdentityIsScalar and Resolvers.CompositeIdentity state what `identity_attr` and `identity` make of them. |
| Registries.StateAttrs | spec/unit/resource_property_state_spec.rb:88-93 | `state_attrs`: exactly the declared properties flagged desired state (Registries.Flagged), in declaration order (Registries.FlaggedInOrder), independent of identity flags (Resolvers.StateIgnoresIdentity). |
| Registries.IdentityAttrLocal | spec/unit/resource_property_state_spec.rb:76-80 | The local layer after `identity_attr :p`. It stays well formed, and Registries.IdentityAttrSetEffect, Registries.IdentityAttrSetSole and Registries.IdentityAttrSetKeepsState state what the class then sees. |
| Registries.MergeOverrides | spec/unit/resource_property_state_spec.rb:122-129 | A subclass sees every inherited and every local name. A local declaration wins over the inherited one, an inherited one shows through otherwise, and the inherited order is kept as a prefix. |
| Registries.MergeDeclare | spec/unit/resource_property_state_spec.rb:131-142 | Declaring a property in a subclass's own layer gives the same registry as declaring it in the merged registry the subclass sees. |
| Registries.IdentityAttr | spec/unit/resource_property_state_spec.rb:252-254 | `identity_attr` with no argument is `:name` when no property is flagged identity. Otherwise it is the first identity property in declaration order. |
| Registries.IdentityAttrSetEffect | spec/unit/resource_property_state_spec.rb:61-65 | After `identity_attr :p`, the class sees the same names in the same order, plus `p` at the end if it was unknown. `p` is identity, keeping its descriptor (or synthesized as an identity, desired-state property). Every other property is kept with its identity flag cleared. |
| Registries.IdentityAttrSetSole | spec/unit/resource_property_state_spec.rb:273-279 | After `identity_attr :p`, `p` is the only identity property, and `identity_attr` reports `p`, whatever was flagged before. |
| Registries.IdentityAttrSetKeepsState | spec/unit/resource_property_state_spec.rb:88-93 | `identity_attr :p` leaves `state_attrs` unchanged for a declared `p`. A synthesized `p` is appended. |
| Registries.SubclassIdentityJoins | spec/unit/resource_property_state_spec.rb:131-142 | A new identity property declared on a subclass is appended to the inherited identity properties. `identity_attr` stays the inherited first one when there was one. |
| Resolvers.Effective | spec/unit/resource_property_spec.rb:54-57 | The value a get returns: the set value, else the name for a `name_property`, else the default, else nil. Accessor.GetReads (a get returns it), Resolvers.NamePropertyFallback (the name fallback) and Accessor.UnsetFallback (the default and nil fallback) carry its contract. |
| Resolvers.Identity | spec/unit/resource_property_state_spec.rb:240-272 | `identity`. Its contract is spread over three lemmas: Resolvers.NoIdentityMeansName (no identity property), Resolvers.SoleIdentityIsScalar (one) and Resolvers.CompositeIdentity (several). |
| Resolvers.State | spec/unit/resource_property_state_spec.rb:181-189 | `state`. Resolvers.StateShape gives its keys and values, and Resolvers.StateIgnoresIdentity shows identity flags do not matter. |
| Resolvers.NoIdentityMeansName | spec/unit/resource_property_state_spec.rb:54-58 | With no property flagged identity: `identity_attr` is `:name`, `name` is not flagged, and `identity` is the get of `name`, which is the resource's name once set. |
| Resolvers.SoleIdentityIsScalar | spec/unit/resource_property_state_spec.rb:240-247 | With exactly one identity property `x`: `identity_attr` is `x`, and `identity` is the single value a get of `x` returns (its set value when set). |
| Resolvers.CompositeIdentity | spec/unit/resource_property_state_spec.rb:255-272 | With several identity properties, `identity` is a hash of exactly the set ones with their set values. Defaults never appear, and the hash is empty when none is set. |
| Resolvers.StateShape | spec/unit/resource_property_state_spec.rb:181-189 | `state` holds exactly the declared properties flagged desired state, each with the value a get returns. The identity flag does not affect membership. |
| Resolvers.NamePropertyFallback | spec/unit/resource_property_state_spec.rb:282-289 | An unset `name_property` reads as the resource's name. It does so in `identity` when it is the sole identity property, and in `state` when it is desired state. |
| Resolvers.StateIgnoresIdentity | spec/unit/resource_property_state_spec.rb:88-93 | Two registries that differ only in identity flags have the same `state_attrs`, the same gets and the same `state`. |
| Resolvers.IdentityAttrKeepsStateValues | spec/unit/resource_property_state_spec.rb:152-157 | For a declared `p`, `identity_attr :p` changes neither `state_attrs` nor `state`, for any values set. |
| Resolvers.IdentityAfterIdentityAttr | spec/unit/resource_property_state_spec.rb:82-87 | After `identity_attr :p`, `identity_attr` is `p` and `identity` is the single value of `p`, however many properties were identity before. |
| Accessor.Call | spec/unit/resource_property_spec.rb:53-73 | `x` and `x v`. Its contract is Accessor.UndeclaredRaises, Accessor.GetReads, Accessor.SetOutcome, Accessor.SetThenGet, Accessor.LatestWins, Accessor.NilCallRaises and Accessor.NilCallReads. |
| Accessor.Assign | spec/unit/resource_property_spec.rb:74-83 | `x = v`. Its contract is Accessor.UndeclaredRaises, Accessor.AssignNil and Accessor.AssignOverwrite. |
| Accessor.UndeclaredRaises | spec/unit/resource_property_spec.rb:43-46 | A name never declared has no accessor. Calling or assigning it raises and changes nothing. |
| Accessor.GetReads | spec/unit/resource_property_spec.rb:56 | `x` with no argument returns the value a get resolves to and changes nothing. |
| Accessor.UnsetFallback | spec/unit/resource_property_state_spec.rb:249-272 | An unset property that is not a `name_property` reads as its default, or nil without one. `state` shows that value for a desired-state property, yet a multi-property `identity` hash leaves the property out. |
| Accessor.SetOutcome | spec/unit/resource_property_spec.rb:55 | `x v` with a non-nil `v` succeeds exactly when validation accepts `v`. Success returns `v` and stores it; failure raises ValidationFailed and leaves the store unchanged. |
| Accessor.SetThenGet | spec/unit/resource_property_spec.rb:54-57 | A call-style set returns the value, and the next get returns it too. |
| Accessor.LatestWins | spec/unit/resource_property_spec.rb:65-69 | A second call-style set returns the new value and replaces the first in the store. A later get returns the new value. |
| Accessor.NilCallRaises | spec/unit/resource_property_spec.rb:58-60 | With deprecation warnings as errors, `x nil` raises DeprecatedFeatureError and the store is unchanged. |
| Accessor.NilCallReads | spec/unit/resource_property_spec.rb:61-63 | With the switch off, `x nil` behaves as `x`: it returns the stored value and changes nothing. |
| Accessor.AssignNil | spec/unit/resource_property_spec.rb:74-78 | `x = nil` stores nil and yields nil. A later get returns nil, not a default. |
| Accessor.AssignOverwrite | spec/unit/resource_property_spec.rb:79-83 | `x = v` replaces any earlier value with `v`, yields `v`, and a later get returns `v`. |
| Accessor.StringRejectsInt | spec/unit/resource_property_state_spec.rb:164-166 | A `String` property rejects an Integer with ValidationFailed, by call and by assignment, and keeps its value. |
| Accessor.IdentityAttrKeepsAccessors | spec/unit/resource_property_state_spec.rb:173-178 | After `identity_attr :p`, every declared property's call and assignment behave exactly as before, validation included. |
| Resources.DemoteAll | spec/unit/resource_property_state_spec.rb:273-279 | The loop over the class's registry builds the same layer as demoting every other identity property, name by name in declaration order. |
| Resources.RetagLayer | spec/unit/resource_property_state_spec.rb:61-65 | The promote-then-demote steps compute the layer `identity_attr :p` specifies. |
| Resources.ResourceClass.Root | spec/unit/resource_property_state_spec.rb:17-22 | A new direct subclass of Chef::Resource is valid, has nothing declared, and sees only the built-in `name` property. |
| Resources.ResourceClass.Subclass | spec/unit/resource_property_state_spec.rb:97-102 | A new subclass is valid, has nothing declared, and sees exactly what its superclass sees. |
| Resources.ResourceClass.DeclareProperty | spec/unit/resource_property_state_spec.rb:43-46 | `property x, ...` re-declares `x` in the class's own layer. The class stays valid, what it inherits is unchanged, and what it sees is the old view with `x` declared. |
| Resources.ResourceClass.SetIdentityAttr | spec/unit/resource_property_state_spec.rb:61-80 | `identity_attr :p` replaces the class's own layer by the layer `identity_attr :p` specifies and returns `p`. Afterwards `identity_attr` reports `p`. The class stays valid and its inheritance is unchanged. |
| Resources.ResourceClass.Properties | spec/unit/resource_property_state_spec.rb:122-125 | What the class sees: its superclass's current view with its own layer merged on top. It is well formed for every valid class (Resources.ResourceClass.PropertiesWellFormed), and Resources.ResourceClass.Subclass, DeclareProperty and SetIdentityAttr state how it changes. |
| Resources.ResourceClass.PropertiesWellFormed | spec/unit/resource_property_state_spec.rb:97-102 | Along the live superclass chain, what a valid class inherits and what it sees are both well formed. |
| Resources.ResourceClass.GetIdentityAttr | spec/unit/resource_property_state_spec.rb:62-63 | `identity_attr` of the class is Registries.IdentityAttr of what it sees. Resources.ResourceClass.SetIdentityAttr ensures it reports `p` afterwards. |
| Resources.ResourceClass.GetStateAttrs | spec/unit/resource_property_state_spec.rb:152-153 | `state_attrs` of the class is Registries.StateAttrs of what it sees, whose contract is Registries.Flagged and Registries.FlaggedInOrder. |
| Resources.Resource.constructor | spec/unit/resource_property_state_spec.rb:24-26 | `resource_class.new(name)` belongs to that class and has only its name set. |
| Resources.Resource.Call | spec/unit/resource_property_spec.rb:54-69 | A call on a resource returns what the accessor returns for the registry its class sees now. The resource's values become the accessor's new store. |
| Resources.Resource.Assign | spec/unit/resource_property_spec.rb:74-83 | An assignment on a resource returns what the accessor returns, and the resource's values become the new store. |
| Resources.Resource.Identity | spec/unit/resource_property_state_spec.rb:71 | `resource.identity` is Resolvers.Identity of the class's current view and the resource's values, so its contract is Resolvers.NoIdentityMeansName, SoleIdentityIsScalar and CompositeIdentity. Scenarios.IdentityAttrOnObjects and Scenarios.SubclassSeesLaterIdentityAttr state its value on objects. |
| Resources.Resource.State | spec/unit/resource_property_state_spec.rb:92 | `resource.state` is Resolvers.State of the class's current view and the resource's values, so its contract is Resolvers.StateShape and Resolvers.StateIgnoresIdentity. |
| SpecHelpers.EnglishJoin | spec/unit/resource_property_state_spec.rb:28-32 | `english_join`. Its contract is SpecHelpers.EnglishJoinSpec. |
| SpecHelpers.SplitAsWritten | spec/unit/resource_property_state_spec.rb:35-37 | The split `with_property` performs as written. SpecHelpers.AsWrittenAgreesAfterAString and SpecHelpers.LeadingTagCounterexample relate it to the intended split. |
| SpecHelpers.JoinMapIsListing | spec/unit/resource_property_state_spec.rb:31 | Joining the inspected values with ", " equals the reference listing built value by value from the back. |
| SpecHelpers.EnglishJoinSpec | spec/unit/resource_property_state_spec.rb:28-32 | `english_join` gives `<nothing>` for no values and the one value inspected for one. Otherwise it gives the listing of all but the last, then " and ", then the last. |
| SpecHelpers.FindIndex | spec/unit/resource_property_state_spec.rb:35 | The index found is that of a tag with only strings before it. None means every argument is a string. |
| SpecHelpers.SplitArgs | spec/unit/resource_property_state_spec.rb:36-40 | The intended split: property strings and tags concatenate back to the arguments, every property is a string, and the tags start at a tag or are empty. |
| SpecHelpers.SplitUnique | spec/unit/resource_property_state_spec.rb:36-40 | Any split meeting that contract is the intended split, so the contract determines it. |
| SpecHelpers.AsWrittenAgreesAfterAString | spec/unit/resource_property_state_spec.rb:35-37 | When the first argument is not a tag, the split as written equals the intended split. |
| SpecHelpers.LeadingTagCounterexample | spec/unit/resource_property_state_spec.rb:37 | With a tag as the only argument, the split as written takes it as a property and as a tag; the intended split takes it as a tag only. |
| SpecHelpers.Declarations | spec/unit/resource_property_state_spec.rb:41 | One declaration per property argument, each being "property " followed by the argument. |
| SpecHelpers.WithProperty | spec/unit/resource_property_state_spec.rb:34-42 | The declarations are "property " plus each string before the first tag. The tags are the rest and start at a tag. The title is "With properties " plus the english join of the declarations. |
| SpecHelpers.NameSuffix | spec/unit/resource_property_state_spec.rb:9 | Every handed-out name is the fixed prefix followed by digits that read back as the counter value. |
| SpecHelpers.NamesDistinct | spec/unit/resource_property_state_spec.rb:6-11 | Different counter values give different names. |
| SpecHelpers.NewResourceNamer.constructor | spec/unit/resource_property_state_spec.rb:7 | The counter starts at 0. |
| SpecHelpers.NewResourceNamer.Next | spec/unit/resource_property_state_spec.rb:8-10 | `next` bumps the counter by one, then returns the name for the new counter value. |
| SpecHelpers.NextTwice | spec/unit/resource_property_state_spec.rb:13-15 | Two successive names carry the next two counter values and differ. |
| Scenarios.BareSetThenGet | spec/unit/resource_property_spec.rb:54-57 | With only `x` declared: `x v` returns `v`, and `x` then returns `v`. |
| Scenarios.BareNilIsDeprecatedRead | spec/unit/resource_property_spec.rb:58-64 | After `x v` for any non-nil `v` (10 in the example): `x nil` raises DeprecatedFeatureError while deprecation warnings are errors. With the switch off, `x nil` and `x` both return `v`. |
| Scenarios.BareAssignments | spec/unit/resource_property_spec.rb:74-83 | After `x v` for any non-nil `v`: `x = nil` yields nil and the get returns nil, and `x = w` (20 in the example) yields `w` and the get returns `w`. |
| Scenarios.BareUpdate | spec/unit/resource_property_spec.rb:65-69 | With only `x` declared: after `x v`, `x w` returns `w`, and `x` then returns `w`. |
| Scenarios.NameIsDefaultIdentity | spec/unit/resource_property_state_spec.rb:54-59 | With `property :x`: `identity_attr` is `:name`, `name` is not identity, and both the name and `identity` are the resource's name. |
| Scenarios.IdentityAttrChangesIdentity | spec/unit/resource_property_state_spec.rb:61-72 | After `identity_attr :x`, `identity_attr` is `x`, `x` is flagged and `name` is not. `x v` (`'woo'` in the example) returns and stores `v`, `name` still reads as the resource's name, and `identity` is the value set on `x`. |
| Scenarios.IdentityAttrOverridesIdentityTrue | spec/unit/resource_property_state_spec.rb:82-93 | With `y` declared identity and then `identity_attr :x`: `identity_attr` is `x` and `identity` is the value of `x`. `state_attrs` is `[x, y]` and `state` holds both set values. |
| Scenarios.SubclassDefaultIdentity | spec/unit/resource_property_state_spec.rb:108-113 | A subclass with nothing declared has `:name` as its identity attribute, `name` unflagged, and the resource's name as `identity`. |
| Scenarios.SubclassInheritsIdentity | spec/unit/resource_property_state_spec.rb:122-129 | After `identity_attr :x` on the superclass, the subclass's identity attribute is `x` (flagged, `name` not), and its `identity` is the value set on `x`. |
| Scenarios.SubclassIdentityIncludesBoth | spec/unit/resource_property_state_spec.rb:137-142 | With `property :y, identity: true` on that subclass, `identity_attr` is still `x` and `identity` is the hash of both set values. |
| Scenarios.SubclassIdentityAttr | spec/unit/resource_property_state_spec.rb:145-166 | Take `y` declared `String` on the superclass, then `identity_attr :y` on the subclass. The subclass's `state_attrs` is `[x, y]`, its `state` holds both values, its identity is `y` with `y`'s value, and `y i` for any Integer `i` (12 in the example) raises ValidationFailed. |
| Scenarios.StringOnlyKeepsValidation | spec/unit/resource_property_state_spec.rb:173-179 | After `identity_attr :string_only`, both `String` properties still reject any Integer (12 in the example) with ValidationFailed and keep their values. |
| Scenarios.IdentityAttrKeepsDesiredStateFalse | spec/unit/resource_property_state_spec.rb:181-189 | For a `desired_state: false` property made identity, `identity` is its value, it stays out of desired state, `state_attrs` is empty and `state` is the empty hash. |
| Scenarios.DeclaredIdentityIsScalar | spec/unit/resource_property_state_spec.rb:240-247 | With one `identity: true` property, `identity_attr` is that property and `identity` is its set value. |
| Scenarios.MultipleIdentities | spec/unit/resource_property_state_spec.rb:249-272 | With three identity properties that have defaults, `identity_attr` is the first. `identity` is the hash of exactly the set ones: all three, two, one (still a hash), or none (the empty hash). |
| Scenarios.IdentityAttrWipesOthers | spec/unit/resource_property_state_spec.rb:273-279 | After `identity_attr :y` among the three, `identity_attr` is `y` and, with all three set, `identity` is the single value of `y`, not a hash. |
| Scenarios.NamePropertyIdentity | spec/unit/resource_property_state_spec.rb:282-289 | An unset property that is identity and `name_property` makes `identity` the resource's name and `state` map it to the name. |
| Scenarios.SetThenIdentity | spec/unit/resource_property_state_spec.rb:67-71 | Creating a resource of a class, setting `n` to `v` on it and asking for `identity` gives exactly what the accessor and Resolvers.Identity give for the class's current view. |
| Scenarios.IdentityAttrOnObjects | spec/unit/resource_property_state_spec.rb:61-72 | On class and resource objects: after `property :x` and `identity_attr :x`, both the return value and `identity_attr` are `x`. `x v` on a new resource returns `v`, and `identity` is `v`. |
| Scenarios.SubclassThenIdentityAttr | spec/unit/resource_property_state_spec.rb:97-120 | A subclass linked to its superclass before `identity_attr :p` runs there still sees the superclass's new view afterwards, because the link is live. The superclass's layer is what `identity_attr :p` specifies, and its `identity_attr` reports `p`. |
| Scenarios.SubclassBeforeIdentityAttr | spec/unit/resource_property_state_spec.rb:97-120 | After `property :x`, a subclass is created and then `identity_attr :x` runs on the superclass. The subclass sees the superclass's registry with `x` as sole identity. In the example the lazy `let` creates the subclass after the `before` block; the live link makes the order immaterial, and this is the order that needs it. |
| Scenarios.SubclassSeesLaterIdentityAttr | spec/unit/resource_property_state_spec.rb:115-129 | On objects: that subclass reports `x` as `identity_attr`, and a resource of it with `x v` set has `identity` `v`. |

## Left out

- The Chef::Resource implementation is not part of this model. The registry, the
  accessor and `identity_attr :p` are reconstructed from what the examples expect of
  them.
- RSpec's own structure (`describe`, `context`, `let`, `before`, tags) is not modelled.
  The string evaluation by `class_eval` is modelled only as the declaration it causes.
  Each example becomes a lemma in `Scenarios` that builds its classes directly.
- The `custom_property` block (state spec lines 192-237) is left out because it sits
  inside a `before` block, so none of its examples runs; one of its expectations is
  also incomplete.
- The empty example stubs (state spec lines 293-337) are left out because they assert
  nothing.
- `Chef::Config[:treat_deprecation_warnings_as_errors]` is global mutable
  configuration; it is the boolean parameter `deprecationErrors`.
- The deprecation warning and any log output are left out; only the raise-or-read
  outcome is modelled.
- Ruby `inspect` formatting is a function parameter of `english_join`.
- Coercion, lazy values and every type other than `String` are not exercised by the
  examples and are not modelled. Values other than nil, a String and an Integer are
  not modelled either.
- That nil passes `String` validation is an assumption, as no example exercises it.
- The built-in `name` descriptor is not desired state and not identity, as the examples
  show: `name` is never in `state_attrs`, `properties[:name].identity?` is falsey, and
  `identity` falls back to it only when nothing is identity. Its `String` type is an
  assumption, since no example exercises it.
- The example at property spec lines 70-73 is titled "with =" but uses the call form,
  so it states nothing beyond lines 54-57.
- Ruby symbols (`:x`) are strings.
- Registries.IdentityAttrSetEffect: `identity_attr :p` on a name no class declares
  synthesizes `p` as an untyped, default-less, desired-state identity property (the
  `Implicit` descriptor). No running example shows this: the only one that would is
  the `custom_property` block left out above. The clauses of
  Registries.IdentityAttrSetEffect and Registries.IdentityAttrSetKeepsState about a
  synthesized `p` rest on that choice.
- Ruby hashes keep insertion order, but `identity` and `state` are modelled as maps,
  which have none. The examples compare those hashes with `eq`, which ignores order.
- `NewResourceNamer`'s counter is a class-level variable shared by all examples in
  Ruby. Here it is one object passed to its callers.

## Findings

| source | as written | input that shows it | evidently intended | confidence | as-written member | corrected member |
|---|---|---|---|---|---|---|
| spec/unit/resource_property_state_spec.rb:37 (the same line in spec/unit/resource_property_spec.rb) | `properties[0..tags_index-1]` with `tags_index == 0` is `properties[0..-1]`, the whole list, so every argument, tags included, is also taken as a property | `with_property` called with a tag as its first argument, e.g. `[Tag("focus")]` | the properties are the arguments before the first tag, so none here | not executed | SpecHelpers.SplitAsWritten, shown by SpecHelpers.LeadingTagCounterexample | SpecHelpers.SplitArgs, characterised by SpecHelpers.SplitUnique and used by SpecHelpers.WithProperty |
