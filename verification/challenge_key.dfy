/** The composite challenge key `"<ctfId>-<challengeName>"`: built once per
    rendered challenge and parsed back when an answer is verified. */
module ChallengeKey {
  import opened Wrappers
  import opened JsStrings

  const Separator: char := '-'

  /** What the verifier recovers from a key: the id as `parseInt` reads the text
      before the first hyphen (`None` for `NaN`), and the name. */
  datatype DecodedKey = DecodedKey(id: Option<int>, name: string)

  /** The template literal `${ctfId}-${challenge.name}`. */
  function Encode(id: int, name: string): (key: string)
    ensures Separator in key
    ensures id >= 0 ==> key[..IndexOf(key, Separator)] == NatToString(id)
    ensures id >= 0 ==> key[IndexOf(key, Separator) + 1..] == name
  {
    var digits := IntToString(id);
    var key := digits + [Separator] + name;
    assert key[|digits|] == Separator;
    if id >= 0 then
      assert Separator !in digits by {
        assert forall i :: 0 <= i < |digits| ==> IsDigit(digits[i], 10);
      }
      IndexOfAfterPrefix(digits, Separator, name);
      assert key[..|digits|] == digits;
      key
    else key
  }

  /** `const [ctfId, ...parts] = key.split('-')` followed by `parts.join('-')`
      and `parseInt(ctfId)`. The name is everything after the first hyphen,
      hyphens included, and the empty string when the key has none. */
  function Decode(key: string): (d: DecodedKey)
    ensures Separator !in key ==> d == DecodedKey(ParseInt(key), "")
    ensures Separator in key ==>
              var i := IndexOf(key, Separator);
              d == DecodedKey(ParseInt(key[..i]), key[i + 1..])
  {
    var parts := Split(key, Separator);
    if Separator in key then
      var i := IndexOf(key, Separator);
      assert key == key[..i] + [Separator] + key[i + 1..];
      SplitAtFirst(key[..i], Separator, key[i + 1..]);
      DecodedKey(ParseInt(parts[0]), Join(parts[1..], [Separator]))
    else
      DecodedKey(ParseInt(parts[0]), Join(parts[1..], [Separator]))
  }

  /** Decoding undoes encoding for every non-negative id and every name,
      including names that contain the separator. */
  lemma DecodeEncode(id: int, name: string)
    requires id >= 0
    ensures Decode(Encode(id, name)) == DecodedKey(Some(id), name)
  {
    var digits := IntToString(id);
    var key := Encode(id, name);
    assert Separator !in digits by {
      assert forall i :: 0 <= i < |digits| ==> IsDigit(digits[i], 10);
    }
    IndexOfAfterPrefix(digits, Separator, name);
    assert key[..|digits|] == digits;
    assert key[|digits| + 1..] == name;
    ParseIntOfIntToString(id);
  }

  /** Distinct (id, name) pairs with non-negative ids never share a key. */
  lemma EncodeInjective(id1: int, name1: string, id2: int, name2: string)
    requires id1 >= 0 && id2 >= 0
    requires Encode(id1, name1) == Encode(id2, name2)
    ensures id1 == id2 && name1 == name2
  {
    DecodeEncode(id1, name1);
    DecodeEncode(id2, name2);
  }

  /** A negative id prints with a leading minus, which `split` takes for the
      separator: the text before it is empty and parses as `NaN`, so such a key
      never finds its collection again. */
  lemma NegativeIdIsLost(id: int, name: string)
    requires id < 0
    ensures Decode(Encode(id, name)).id == None
    ensures Decode(Encode(id, name)).name == Encode(-id, name)
  {
    var u := NatToString(-id);
    var key := Encode(id, name);
    assert key == [Separator] + (u + [Separator] + name);
    assert IndexOf(key, Separator) == 0;
    assert key[..0] == [];
    ParseIntWithoutDigits([]);
    assert key[1..] == u + [Separator] + name;
    assert Encode(-id, name) == u + [Separator] + name;
  }
}
