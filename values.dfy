/**
 * The Python values that the settings code handles, its errors, and Python's
 * truth test on the two kinds of value whose truth the code inspects.
 */
module Values {

  /**
   * An option value or attribute value. Only the shapes the code tells apart
   * are distinguished: `None`, booleans (the `_default` flag), strings,
   * dictionaries (the `_mod_settings` record) and every other object
   * (datetimes, lists, time zones), which is identified but not inspected.
   */
  datatype Value =
    | Null
    | Bool(flag: bool)
    | Text(chars: string)
    | Dict(entries: map<string, Value>)
    | Object(id: nat)

  datatype Option<T> = None | Some(value: T)

  /**
   * The errors: the two `TypeError`s the module raises itself, the
   * `TypeError` Python raises for a keyword given twice, and the
   * `AttributeError` of a failed `getattr`.
   */
  datatype ConfError =
    | InvalidOverride(key: string)      // an override whose value is None
    | MissingAttribute(name: string)    // AttributeError: getattr on an option the instance lacks
    | DuplicateKeyword(name: string)    // `mod_settings` or `self` given twice to `replace`
    | InvalidSettingsType               // `settings` neither a dict nor a Settings

  datatype Result<T> = Success(value: T) | Failure(error: ConfError)

  /** Python's `bool(d)` for a dictionary that may be `None`: a dict with some key. */
  predicate TruthyDict(d: Option<map<string, Value>>)
    ensures TruthyDict(d) <==> d.Some? && exists k :: k in d.value
  {
    d.Some? && d.value != map[]
  }
}
