/** Parsed JSON values, as the registry's manifest and audit code sees them. */
module Json {
  import opened Common

  datatype Json =
    | Null
    | Bool(flag: bool)
    | Num(n: int)
    | Str(text: string)
    | Arr(items: seq<Json>)
    | Obj(fields: map<string, Json>)
  {
    /** The member `name` of an object; nothing for any other kind of value. */
    function Get(name: string): Option<Json> {
      if Obj? && name in fields then Some(fields[name]) else None
    }

    function AsStr(): Option<string> {
      if Str? then Some(text) else None
    }

    /** The elements of an array; any other kind of value counts as empty. */
    function Elements(): seq<Json> {
      if Arr? then items else []
    }
  }
}
