/**
 The already-parsed mapping configuration the engine consumes, the errors that abort a
 row, and the library routines (regular expressions, date parsing, base64) the engine
 calls but does not define.

 Each configuration record stands for a Python dict: an `Option` field is `Some` exactly
 when the key is present.
 */
module Config {
  import opened Wrappers
  import opened Values

  /** One `pattern: replacement` entry of a substitution map, applied with `re.sub`. */
  datatype Substitution = Substitution(pattern: string, replacement: string)

  /** A substitution map, in the order its entries are iterated. */
  type SubstitutionMap = seq<Substitution>

  /** The `replace` key: a single substitution map, or a list of maps applied in turn. */
  datatype Replace = Single(subs: SubstitutionMap) | Chain(maps: seq<SubstitutionMap>)

  /**
   How one column's value contributes to one output field. `clean` names cleaning rules
   (a single name is a one-element list); `lookup` is the `map` key and `matchPattern`
   the `match` key; `validatesPresence` is `validates: {presence: ...}` read as a boolean.
   */
  datatype FieldMapping = FieldMapping(
    field: string,
    replace: Option<Replace>,
    format: Option<string>,
    clean: Option<seq<string>>,
    lookup: Option<map<string, Value>>,
    matchPattern: Option<string>,
    daysAfter: Option<string>,
    validatesPresence: bool,
    order: Option<int>,
    priority: Option<int>,
    join: Option<string>,
    compact: Option<bool>)

  /** A field mapping naming only its target field. */
  function ToField(field: string): FieldMapping {
    FieldMapping(field, None, None, None, None, None, None, false, None, None, None, None)
  }

  /** The configuration of one input column. */
  datatype ColumnMapping = ColumnMapping(
    column: Option<string>,
    rawtextName: Option<string>,
    doNotCapture: Option<bool>,
    decode: Option<seq<string>>,
    standardMapping: Option<string>,
    mappings: Option<seq<FieldMapping>>)

  /** A column mapping with no keys at all: the empty dict, which Python treats as false. */
  const NoKeys := ColumnMapping(None, None, None, None, None, None)

  /** Everything that aborts the mapping of a row. */
  datatype Error =
    | WrongNumberOfColumns                  // a falsy column mapping
    | MissingColumnMapping                  // the row is longer than the mapping list
    | UnknownStandardMapping(name: string)  // the referenced template does not exist
    | MissingColumnName                     // neither `rawtext_name` nor `column` names the column
    | UnsupportedEncoding(encoding: string) // a `decode` entry other than base64
    | MalformedBase64                       // base64 input that is not ASCII or does not decode
    | DaysAfterNotImplemented               // any use of `daysafter`
    | PresenceViolation(field: string)      // a blank value for a field that must be present
    | TypeMismatch                          // a string operation applied to a non-string value
    | JoinSeparatorMissing(field: string)   // a joined field whose first ordered writer had no `join`

  /**
   The library routines the engine calls, as function values:
   `substitute(pattern, replacement, text)` is `re.sub`; `firstGroup(pattern, text)` is
   `re.search(...).group(1)`, `None` when there is no match or the group did not take part;
   `parseDate(text, format)` is `datetime.strptime`, `None` when it raises `ValueError`;
   `base64Decode` is `base64.b64decode` on bytes, `None` when the input is not valid base64.
   */
  datatype Library = Library(
    substitute: (string, string, string) -> string,
    firstGroup: (string, string) -> Option<string>,
    parseDate: (string, string) -> Option<DateTime>,
    base64Decode: seq<byte> -> Option<seq<byte>>)
}
