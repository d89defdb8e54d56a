/** Property descriptors (`property :x, String, identity: true, ...`) and their validation. */
module Properties {
  import opened Values

  /** The type given to `property`: none, or `String` (the only one the tests exercise). */
  datatype TypeConstraint = AnyType | StringType

  /** Immutable metadata of one declared property; a registry keys it by the property's name. */
  datatype Property = Property(
    kind: TypeConstraint,
    default: Option<Value>,
    identity: bool,
    desiredState: bool,
    nameProperty: bool)

  /** Every resource has the built-in `name` property. */
  const NameKey: string := "name"

  /** `property :n` with no options: no type, no default, desired state, not identity. */
  const Bare: Property := Property(AnyType, None, false, true, false)

  /** The built-in `name` property: not desired state, not identity; its `String` type is assumed. */
  const NameDescriptor: Property := Property(StringType, None, false, false, false)

  /** The descriptor synthesized when `identity_attr :n` names a property that was never declared. */
  const Implicit: Property := Property(AnyType, None, true, true, false)

  /** Whether a value meets a type constraint; nil is not type-checked. */
  predicate Accepts(kind: TypeConstraint, v: Value) {
    kind == AnyType || v.Nil? || v.Str?
  }

  /** Validation run on every explicit set of property `n`: the value is passed through or rejected. */
  function Validate(n: string, p: Property, v: Value): (r: Result<Value>)
    ensures r.Ok? <==> (p.kind == AnyType || !v.Int?)
    ensures r.Ok? ==> r.value == v
    ensures r.Err? ==> r.error == ValidationFailed(n)
  {
    if Accepts(p.kind, v) then Ok(v) else Err(ValidationFailed(n))
  }
}
