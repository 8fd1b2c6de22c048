/** JSON values as `serde_json` holds them; an object is a finite map from keys to values. */
module Json {
  /**
    An object key. The keywords the passes of build.rs or the meaning of a schema single out
    have a constructor each; `Annotation` is a keyword that never constrains an instance
    (`title`, `description`, `example`, ...) and `Name` any other spelling.
  */
  datatype Key =
    | Type | Nullable | Ref | OneOf | AnyOf | AllOf
    | Properties | AdditionalProperties | Items | Required
    | OperationId | Paths
    | Annotation(spelling: string)
    | Name(spelling: string)

  function Spelling(k: Key): string {
    match k
    case Type => "type"
    case Nullable => "nullable"
    case Ref => "$ref"
    case OneOf => "oneOf"
    case AnyOf => "anyOf"
    case AllOf => "allOf"
    case Properties => "properties"
    case AdditionalProperties => "additionalProperties"
    case Items => "items"
    case Required => "required"
    case OperationId => "operationId"
    case Paths => "paths"
    case Annotation(spelling) => spelling
    case Name(spelling) => spelling
  }

  datatype Json =
    | Null
    | Bool(b: bool)
    | Num(n: real)
    | Str(s: string)
    | Arr(items: seq<Json>)
    | Obj(fields: map<Key, Json>)

  /** The values a recursive walk descends into. */
  predicate IsContainer(v: Json) {
    v.Arr? || v.Obj?
  }

  /** No object anywhere inside: scalars and (nested) arrays of scalars. */
  predicate NoObjects(v: Json) {
    match v
    case Obj(_) => false
    case Arr(items) => forall i | 0 <= i < |items| :: NoObjects(items[i])
    case _ => true
  }
}
