/** Values a resource property can hold, and the errors its accessors raise. */
module Values {

  datatype Option<+T> = None | Some(value: T)

  /** The Ruby values the property tests store: nil, a String or an Integer. */
  datatype Value = Nil | Str(s: string) | Int(n: int)

  /** The exceptions raised by a property accessor. */
  datatype Error =
    | ValidationFailed(property: string)       // Chef::Exceptions::ValidationFailed
    | DeprecatedFeatureError(property: string) // Chef::Exceptions::DeprecatedFeatureError
    | NoSuchProperty(property: string)         // NoMethodError: no accessor of that name

  datatype Result<+T> = Ok(value: T) | Err(error: Error)
}
