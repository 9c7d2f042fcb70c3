/** The ways a run can fail before any script is written. */
module Errors {

  datatype Error =
    /** `parse_items` prints "Unknown format" and exits (io.py:85-87). */
    | UnknownFormat(name: string)
    /** `ValueError`: a CSV header or an NDJSON line lacks `title` or `command`. */
    | MissingTitleOrCommand
    /** `ValueError`: a header-less CSV row has fewer than two columns. */
    | TooFewColumns
    /** The JSON decoder rejected the document or a line. */
    | InvalidJson
    /** `KeyError`: the JSON document has no `items` key. */
    | MissingItems
    /** A value used as a dict (document, item, `params`) is not a JSON object. */
    | NotAnObject
    /** `TypeError`: the document's `items` cannot be iterated (it is not a
        list, a dict or a string). */
    | NotAList
    /** `TypeError`: a CSV row longer than its header puts its extra values
        under the key `None`, which cannot be a keyword argument. */
    | ExtraValues
    /** `TypeError`: a record has a key that is not a field of the dataclass. */
    | UnexpectedKeyword
    /** `TypeError`: a required dataclass field has no value. */
    | MissingArgument
    /** A field value whose type does not match the dataclass annotation. */
    | FieldType(name: string)
}
