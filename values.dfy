/** Field values, documents and the small wrappers shared by every module. */
module Values {

  datatype Option<+T> = None | Some(value: T)

  /** The domain errors the store can raise. */
  datatype Error =
    | DuplicateCollection(name: string)  // declare_collection of a name already declared
    | DecodeFailure(id: string)          // the YAML loader rejected the file of this id
    | IdNotText                          // a document's `_id` is neither absent nor text

  datatype Result<+T> = Ok(value: T) | Err(error: Error)

  /** A `datetime.datetime` as far as `strftime('%Y-%m-%dT%H:%M:%SZ')` sees it. */
  datatype DateTime = DateTime(year: nat, month: nat, day: nat, hour: nat, minute: nat, second: nat)

  /** The ranges Python's datetime constructor enforces. */
  predicate ValidDateTime(t: DateTime) {
    && 1 <= t.year <= 9999 && 1 <= t.month <= 12 && 1 <= t.day <= 31
    && t.hour < 24 && t.minute < 60 && t.second < 60
  }

  /** Chronological order: field by field, most significant first. */
  predicate Before(a: DateTime, b: DateTime) {
    || a.year < b.year
    || (a.year == b.year && a.month < b.month)
    || (a.year == b.year && a.month == b.month && a.day < b.day)
    || (a.year == b.year && a.month == b.month && a.day == b.day && a.hour < b.hour)
    || (a.year == b.year && a.month == b.month && a.day == b.day && a.hour == b.hour && a.minute < b.minute)
    || (a.year == b.year && a.month == b.month && a.day == b.day && a.hour == b.hour && a.minute == b.minute
        && a.second < b.second)
  }

  /**
   * A field value. `Other` stands for every kind the stringifier hands to
   * `unicode()` (floats, nested lists and mappings); it carries that text.
   */
  datatype Value =
    | Null
    | Int(i: int)
    | Bool(b: bool)
    | Time(t: DateTime)
    | Text(s: string)
    | Other(repr: string)

  /** A document: field name to value. */
  type Doc = map<string, Value>

  /** `doc.get(field)`: the value, or None when the field is absent. */
  function Lookup(doc: Doc, field: string): Value {
    if field in doc then doc[field] else Null
  }
}
