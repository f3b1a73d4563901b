/** Resolving a composite key to a challenge: the first collection whose id
    equals the parsed prefix, then the first challenge with the decoded name in
    the easy, medium and hard buckets, in that order. */
module Lookup {
  import opened Wrappers
  import opened CatalogData
  import opened ChallengeKey

  /** `Array.prototype.find` as a position: the first element that meets `p`,
      or `None` when no element does. */
  function FirstIndex<T>(s: seq<T>, p: T -> bool): (r: Option<nat>)
    ensures r.Some? ==> r.value < |s| && p(s[r.value])
    ensures r.Some? ==> forall j :: 0 <= j < r.value ==> !p(s[j])
    ensures r.None? <==> forall j :: 0 <= j < |s| ==> !p(s[j])
  {
    if |s| == 0 then None
    else if p(s[0]) then Some(0)
    else
      match FirstIndex(s[1..], p)
      case None => None
      case Some(k) => Some(k + 1)
  }

  /** `ctfData.find(c => c.id === ctfId)`, as a position. */
  function CollectionIndex(data: seq<Collection>, id: int): (r: Option<nat>)
    ensures r.Some? ==> r.value < |data| && data[r.value].id == id
    ensures r.Some? ==> forall j :: 0 <= j < r.value ==> data[j].id != id
    ensures r.None? <==> forall j :: 0 <= j < |data| ==> data[j].id != id
  {
    FirstIndex(data, (c: Collection) => c.id == id)
  }

  /** `bucket.find(c => c.name === challengeName)`, as a position. */
  function ChallengeIndex(bucket: seq<Challenge>, name: string): (r: Option<nat>)
    ensures r.Some? ==> r.value < |bucket| && bucket[r.value].name == name
    ensures r.Some? ==> forall j :: 0 <= j < r.value ==> bucket[j].name != name
    ensures r.None? <==> forall j :: 0 <= j < |bucket| ==> bucket[j].name != name
  {
    FirstIndex(bucket, (ch: Challenge) => ch.name == name)
  }

  function FindInBucket(bucket: seq<Challenge>, name: string): Option<Challenge>
  {
    match ChallengeIndex(bucket, name)
    case None => None
    case Some(i) => Some(bucket[i])
  }

  /** The loop over `['easy', 'medium', 'hard']` that stops at the first bucket
      holding a challenge with this name. */
  function FindChallenge(c: Collection, name: string): (r: Option<Challenge>)
    ensures r.Some? ==> r.value.name == name && r.value in c.AllChallenges()
    ensures r.None? <==> forall ch :: ch in c.AllChallenges() ==> ch.name != name
  {
    match FindInBucket(c.challenges.easy, name)
    case Some(ch) => Some(ch)
    case None =>
      match FindInBucket(c.challenges.medium, name)
      case Some(ch) => Some(ch)
      case None => FindInBucket(c.challenges.hard, name)
  }

  /** The challenge a key designates, if any. */
  function LookupKey(data: seq<Collection>, key: string): (r: Option<Challenge>)
    ensures r.Some? ==> r.value.name == Decode(key).name
    ensures r.Some? ==> Decode(key).id.Some? && exists i :: 0 <= i < |data| && data[i].id == Decode(key).id.value && r.value in data[i].AllChallenges()
    ensures Decode(key).id.None? ==> r.None?
  {
    var d := Decode(key);
    match d.id
    case None => None
    case Some(id) =>
      match CollectionIndex(data, id)
      case None => None
      case Some(i) => FindChallenge(data[i], d.name)
  }

  /** Searching a concatenation finds the match in the first part if there is
      one, and otherwise the match in the second part, shifted. */
  lemma ChallengeIndexOfConcat(a: seq<Challenge>, b: seq<Challenge>, name: string)
    ensures ChallengeIndex(a + b, name) ==
      match ChallengeIndex(a, name)
      case Some(i) => Some(i)
      case None =>
        match ChallengeIndex(b, name)
        case Some(j) => Some(|a| + j)
        case None => None
  {
    var ab := a + b;
    match ChallengeIndex(a, name)
    case Some(i) =>
      assert ab[i] == a[i];
      assert forall j :: 0 <= j < i ==> ab[j] == a[j];
    case None =>
      assert forall j :: 0 <= j < |a| ==> ab[j] == a[j];
      match ChallengeIndex(b, name)
      case Some(k) =>
        assert ab[|a| + k] == b[k];
        assert forall j :: |a| <= j < |a| + k ==> ab[j] == b[j - |a|];
      case None =>
        assert forall j :: |a| <= j < |ab| ==> ab[j] == b[j - |a|];
  }

  /** The bucket-by-bucket search is the first-match search of the whole
      collection listed easy, medium, hard. */
  lemma FindChallengeIsFirstInOrder(c: Collection, name: string)
    ensures FindChallenge(c, name) ==
      match ChallengeIndex(c.AllChallenges(), name)
      case None => None
      case Some(i) => Some(c.AllChallenges()[i])
  {
    var e := c.challenges.easy;
    var m := c.challenges.medium;
    var h := c.challenges.hard;
    assert c.AllChallenges() == e + (m + h);
    ChallengeIndexOfConcat(e, m + h, name);
    ChallengeIndexOfConcat(m, h, name);
    match ChallengeIndex(e, name)
    case Some(i) =>
    case None =>
      match ChallengeIndex(m, name)
      case Some(j) =>
        assert (e + (m + h))[|e| + j] == m[j];
      case None =>
        match ChallengeIndex(h, name)
        case Some(k) =>
          assert (e + (m + h))[|e| + |m| + k] == h[k];
        case None =>
  }

  /** Only the first collection carrying the decoded id is searched, and in it
      the first challenge with the decoded name is found: a challenge that is
      there is found, even when a later collection shares the id. */
  lemma LookupKeySearchesFirstCollection(data: seq<Collection>, key: string, i: nat)
    requires i < |data| && Decode(key).id == Some(data[i].id)
    requires forall j :: 0 <= j < i ==> data[j].id != data[i].id
    ensures LookupKey(data, key) == FindChallenge(data[i], Decode(key).name)
    ensures (exists ch :: ch in data[i].AllChallenges() && ch.name == Decode(key).name) ==>
              LookupKey(data, key).Some?
  {
    var r := CollectionIndex(data, data[i].id);
    assert r.Some?;
    assert r.value == i;
  }

  /** The key built for a challenge of a collection finds, for a non-negative id
      that no earlier collection shares, the first challenge of that collection
      with the same name: the challenge itself when its name is unique there. */
  lemma LookupOfEncodedKey(data: seq<Collection>, i: nat, name: string)
    requires i < |data| && data[i].id >= 0
    requires forall j :: 0 <= j < i ==> data[j].id != data[i].id
    ensures LookupKey(data, Encode(data[i].id, name)) == FindChallenge(data[i], name)
  {
    DecodeEncode(data[i].id, name);
    LookupKeySearchesFirstCollection(data, Encode(data[i].id, name), i);
  }
}
