/**
 * Already-decoded JSON values, as `json.loads` hands them to the upload
 * handler, and Python's `in` operator on them.
 */
module JsonValues {
  import opened Wrappers

  /** A decoded JSON value. Numbers are integers; floats are not modelled. */
  datatype Json =
    | JNull
    | JBool(b: bool)
    | JNumber(n: int)
    | JString(s: string)
    | JArray(items: seq<Json>)
    | JObject(fields: map<string, Json>)

  /** Python's `needle in hay` on two strings: `needle` occurs as a substring. */
  predicate IsSubstring(needle: string, hay: string)
  {
    needle <= hay || (|hay| > 0 && IsSubstring(needle, hay[1..]))
  }

  /** `needle` occurs in `hay` starting at offset `i`. */
  ghost predicate OccursAt(needle: string, hay: string, i: int)
  {
    0 <= i <= |hay| - |needle| && hay[i..i + |needle|] == needle
  }

  /** `needle` occurs somewhere in `hay`. */
  ghost predicate Occurs(needle: string, hay: string)
  {
    exists i :: OccursAt(needle, hay, i)
  }

  /** The recursive test agrees with "occurs at some offset". */
  lemma {:induction false} IsSubstringIff(needle: string, hay: string)
    ensures IsSubstring(needle, hay) <==> Occurs(needle, hay)
  {
    if |hay| > 0 {
      IsSubstringIff(needle, hay[1..]);
    }
    if IsSubstring(needle, hay) {
      if needle <= hay {
        assert OccursAt(needle, hay, 0);
      } else {
        var i :| OccursAt(needle, hay[1..], i);
        assert hay[1..][i..i + |needle|] == hay[i + 1..i + 1 + |needle|];
        assert OccursAt(needle, hay, i + 1);
      }
    }
    forall i | OccursAt(needle, hay, i)
      ensures IsSubstring(needle, hay)
    {
      if i > 0 {
        assert OccursAt(needle, hay[1..], i - 1);
      } else {
        assert hay[..|needle|] == needle;
      }
    }
  }

  /**
   * Python's `key in c` for a string `key`: membership of the keys of a
   * dict, equality with some element of a list, a substring of a string.
   * Any other value (null, a boolean or a number) raises `TypeError`,
   * modelled as `None`.
   */
  function PyIn(key: string, c: Json): (r: Option<bool>)
    ensures r.None? <==> !(c.JObject? || c.JArray? || c.JString?)
    ensures c.JObject? ==> r == Some(key in c.fields)
    ensures c.JArray? ==> r == Some(JString(key) in c.items)
    ensures c.JString? ==> r.Some? && (r.value <==> Occurs(key, c.s))
  {
    match c
    case JObject(fields) => Some(key in fields)
    case JArray(items) => Some(JString(key) in items)
    case JString(s) =>
      IsSubstringIff(key, s);
      Some(IsSubstring(key, s))
    case _ => None
  }
}
