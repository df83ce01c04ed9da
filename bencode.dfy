/**
 * Already-decoded bencoded values, as the Go bencode library hands them to
 * the crawler: integers, byte strings, lists and dictionaries keyed by
 * strings. A Go type assertion `dict["k"].(T)` becomes one of the accessors
 * below: it yields `Some` exactly when the key is present and holds a value
 * of the asserted kind.
 */
module Bencode {
  import opened Wrappers

  type byte = b: int | 0 <= b < 256

  datatype BVal =
    | BInt(i: int)
    | BStr(s: seq<byte>)
    | BList(items: seq<BVal>)
    | BDict(d: map<string, BVal>)

  type Dict = map<string, BVal>

  /** `d[k].(string)`: a byte string stored under `k`. */
  function Str(d: Dict, k: string): (r: Option<seq<byte>>)
    ensures r.Some? <==> k in d && d[k].BStr?
    ensures r.Some? ==> d[k] == BStr(r.value)
  {
    if k in d && d[k].BStr? then Some(d[k].s) else None
  }

  /** `d[k].(int64)`: an integer stored under `k`. */
  function Int(d: Dict, k: string): (r: Option<int>)
    ensures r.Some? <==> k in d && d[k].BInt?
    ensures r.Some? ==> d[k] == BInt(r.value)
  {
    if k in d && d[k].BInt? then Some(d[k].i) else None
  }

  /** `d[k].(map[string]interface{})`: a dictionary stored under `k`. */
  function SubDict(d: Dict, k: string): (r: Option<Dict>)
    ensures r.Some? <==> k in d && d[k].BDict?
    ensures r.Some? ==> d[k] == BDict(r.value)
  {
    if k in d && d[k].BDict? then Some(d[k].d) else None
  }
}
