/** Decoded JSON values. */
module Jsons {
  datatype Json =
    | Null
    | Bool(flag: bool)
    | Num(num: real)
    | Str(str: string)
    | Arr(items: seq<Json>)
    | Obj(fields: map<string, Json>)

  /** The string at `key` of an object; empty when there is none. */
  function StringField(fields: map<string, Json>, key: string): string {
    if key in fields && fields[key].Str? then fields[key].str else ""
  }
}
