/** Rendering and verifying together: the keys the modal hands to its verify
    buttons lead the verifier back to the challenge they were built from. */
module EndToEnd {
  import opened Wrappers
  import opened JsStrings
  import opened CatalogData
  import opened ChallengeKey
  import opened Lookup
  import opened CatalogView
  import opened Verifier

  /** No two challenges of the collection, in any buckets, share a name. */
  predicate NamesUnique(c: Collection) {
    forall i, j :: 0 <= i < j < |c.AllChallenges()| ==> c.AllChallenges()[i].name != c.AllChallenges()[j].name
  }

  /** The position of bucket `d`'s `k`-th challenge in the easy-medium-hard listing. */
  function ListingIndex(c: Collection, d: Difficulty, k: nat): (n: nat)
    requires k < |c.Bucket(d)|
    ensures n < |c.AllChallenges()| && c.AllChallenges()[n] == c.Bucket(d)[k]
  {
    var e := |c.challenges.easy|;
    var m := |c.challenges.medium|;
    match d
    case Easy => k
    case Medium => e + k
    case Hard => e + m + k
  }

  /** The `k`-th item of pane `d` carries the `k`-th challenge's name and the
      key built from the collection id and that name. */
  lemma ModalItemKey(c: Collection, d: Difficulty, k: nat)
    requires k < |c.Bucket(d)|
    ensures OpenModal(c).PaneFor(d).Items?
    ensures k < |OpenModal(c).PaneFor(d).items|
    ensures OpenModal(c).PaneFor(d).items[k].name == c.Bucket(d)[k].name
    ensures OpenModal(c).PaneFor(d).items[k].key == Encode(c.id, c.Bucket(d)[k].name)
  {
  }

  /** For a collection whose id is non-negative and shared by no earlier
      collection, the verify button of the `k`-th item of pane `d` in its modal
      resolves to a challenge with that item's name, the first such in the
      collection; with names unique in the collection, it is the item's own
      challenge. */
  lemma ModalItemResolves(data: seq<Collection>, i: nat, d: Difficulty, k: nat)
    requires i < |data| && data[i].id >= 0
    requires forall j :: 0 <= j < i ==> data[j].id != data[i].id
    requires k < |data[i].Bucket(d)|
    ensures OpenModal(data[i]).PaneFor(d).Items?
    ensures var item := OpenModal(data[i]).PaneFor(d).items[k];
      && LookupKey(data, item.key).Some?
      && LookupKey(data, item.key).value.name == item.name
      && (NamesUnique(data[i]) ==> LookupKey(data, item.key) == Some(data[i].Bucket(d)[k]))
  {
    var c := data[i];
    ModalItemKey(c, d, k);
    var item := OpenModal(c).PaneFor(d).items[k];
    LookupOfEncodedKey(data, i, item.name);
    BucketChallengeFound(c, d, k);
  }

  /** The bucket search finds some challenge under the name of any challenge of
      the collection, and that very challenge when names are unique. */
  lemma BucketChallengeFound(c: Collection, d: Difficulty, k: nat)
    requires k < |c.Bucket(d)|
    ensures FindChallenge(c, c.Bucket(d)[k].name).Some?
    ensures NamesUnique(c) ==> FindChallenge(c, c.Bucket(d)[k].name) == Some(c.Bucket(d)[k])
  {
    var name := c.Bucket(d)[k].name;
    var n := ListingIndex(c, d, k);
    assert c.AllChallenges()[n].name == name;
    if NamesUnique(c) {
      FindChallengeIsFirstInOrder(c, name);
      var r := ChallengeIndex(c.AllChallenges(), name);
      assert r.Some?;
      assert r.value == n;
    }
  }

  /** One collection, id 1, holding one easy challenge "warmup" whose answer is
      "FLAG1". */
  const WarmupChallenge: Challenge :=
    Challenge("warmup", "Find the flag.", "FLAGn", Some("FLAG1"), None, None, None)

  const WarmupCollection: Collection :=
    Collection(1, "Warmup CTF", "A single challenge.", "active", 1, None, "", "",
               Buckets([WarmupChallenge], [], []))

  /** The worked example's card shows one easy badge and the default year. */
  lemma WarmupCard()
    ensures CreateCard(WarmupCollection).badges == [Badge(Easy, 1)]
    ensures CreateCard(WarmupCollection).year == "2024"
  {
    assert |WarmupCollection.Bucket(Easy)| == 1;
    assert BadgeIfAny(WarmupCollection, Easy) == [Badge(Easy, 1)];
    assert BadgeIfAny(WarmupCollection, Medium) == [];
    assert BadgeIfAny(WarmupCollection, Hard) == [];
  }

  /** The worked example's modal lists "warmup" under the key "1-warmup". */
  lemma WarmupModal()
    ensures OpenModal(WarmupCollection).easyPane.Items?
    ensures |OpenModal(WarmupCollection).easyPane.items| == 1
    ensures OpenModal(WarmupCollection).easyPane.items[0].name == "warmup"
    ensures OpenModal(WarmupCollection).easyPane.items[0].key == "1-warmup"
  {
    assert Encode(1, "warmup") == "1-warmup";
  }

  lemma WarmupLookup()
    ensures LookupKey([WarmupCollection], "1-warmup") == Some(WarmupChallenge)
  {
    assert Encode(1, "warmup") == "1-warmup";
    LookupOfEncodedKey([WarmupCollection], 0, "warmup");
    assert ChallengeIndex(WarmupCollection.challenges.easy, "warmup") == Some(0);
  }

  /** Verifying "flag1" under "1-warmup" succeeds and stores
      "ctf_solved_1-warmup". */
  lemma WarmupVerify(store: Store)
    ensures VerifyAnswer([WarmupCollection], "1-warmup", "flag1", store)
              == Verification(Correct, store["ctf_solved_1-warmup" := "true"])
  {
    var data := [WarmupCollection];
    var key := "1-warmup";
    var input := "flag1";
    assert SameUpToCase("FLAG1", input) && !AllWhitespace("FLAG1") by {
      assert !IsWhitespace("FLAG1"[0]);
    }
    assert [] + input + [] == input;
    assert SolvedKey(key) == "ctf_solved_1-warmup";
    WarmupLookup();
    ExpectedAnswerAccepted(data, key, store, [], input, []);
  }
}
