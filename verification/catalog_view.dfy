/** What the page derives from the collection list, as values rather than DOM:
    the hero statistics, the card grid, and the detail modal with its three
    difficulty panes of accordion items. */
module CatalogView {
  import opened Wrappers
  import opened JsStrings
  import opened CatalogData
  import opened ChallengeKey

  // ---------------------------------------------------------------------------
  // Hero statistics
  // ---------------------------------------------------------------------------

  /** The two counters the hero section animates: challenges and collections. */
  datatype HeroStats = HeroStats(totalChallenges: int, totalCtfs: nat)

  /** The sum of the declared challenge counts. */
  function SumTotals(data: seq<Collection>): int
  {
    if |data| == 0 then 0 else data[0].totalChallenges + SumTotals(data[1..])
  }

  lemma {:induction false} SumTotalsOfConcat(a: seq<Collection>, b: seq<Collection>)
    ensures SumTotals(a + b) == SumTotals(a) + SumTotals(b)
    decreases |a|
  {
    if |a| == 0 {
      assert a + b == b;
    } else {
      assert (a + b)[1..] == a[1..] + b;
      SumTotalsOfConcat(a[1..], b);
    }
  }

  /** `updateHeroStats`: the `reduce` from the left over the list, and its length. */
  method UpdateHeroStats(data: seq<Collection>) returns (stats: HeroStats)
    ensures stats.totalChallenges == SumTotals(data)
    ensures stats.totalCtfs == |data|
  {
    var sum := 0;
    var i := 0;
    while i < |data|
      invariant 0 <= i <= |data|
      invariant sum == SumTotals(data[..i])
    {
      SumTotalsOfConcat(data[..i], [data[i]]);
      assert data[..i + 1] == data[..i] + [data[i]];
      sum := sum + data[i].totalChallenges;
      i := i + 1;
    }
    assert data[..i] == data;
    stats := HeroStats(sum, |data|);
  }

  // ---------------------------------------------------------------------------
  // Catalog cards
  // ---------------------------------------------------------------------------

  /** A difficulty tag on a card, such as "2 Medium". */
  datatype Badge = Badge(difficulty: Difficulty, count: nat)

  datatype Card = Card(
    title: string,
    status: string,
    description: string,
    totalChallenges: int,
    year: string,
    badges: seq<Badge>,
    opens: Collection)  // the collection a click on the card shows

  /** What the grid holds: the "No CTF collections available yet." placeholder,
      or one card per collection. */
  datatype Grid = NoCollections | CardGrid(cards: seq<Card>)

  const DefaultYear: string := "2024"

  /** `ctf.year || '2024'`: an absent year and the falsy year 0 both show the
      default; any other year shows as its decimal text. */
  function YearLabel(year: Option<int>): (r: string)
    ensures year.None? || year.value == 0 ==> r == DefaultYear
    ensures year.Some? && year.value != 0 ==> ParseInt(r) == Some(year.value)
    ensures year.Some? && year.value != 0 ==> r == IntToString(year.value)
  {
    if year.Some? && year.value != 0 then
      ParseIntOfIntToString(year.value);
      IntToString(year.value)
    else DefaultYear
  }

  /** A badge tells the true, non-zero size of its difficulty's bucket. */
  predicate BadgeFits(c: Collection, b: Badge) {
    b.count == |c.Bucket(b.difficulty)| && b.count > 0
  }

  /** Badges appear in the order easy, medium, hard, each at most once. */
  predicate InRankOrder(r: seq<Badge>) {
    forall i, j :: 0 <= i < j < |r| ==> r[i].difficulty.Rank() < r[j].difficulty.Rank()
  }

  function BadgeIfAny(c: Collection, d: Difficulty): (r: seq<Badge>)
    ensures |c.Bucket(d)| > 0 ==> r == [Badge(d, |c.Bucket(d)|)]
    ensures |c.Bucket(d)| == 0 ==> r == []
  {
    if |c.Bucket(d)| > 0 then [Badge(d, |c.Bucket(d)|)] else []
  }

  /** The difficulty tags of a card: one per non-empty bucket, carrying that
      bucket's size, in the order easy, medium, hard. */
  function Badges(c: Collection): (r: seq<Badge>)
    ensures forall i :: 0 <= i < |r| ==> BadgeFits(c, r[i])
    ensures forall d: Difficulty :: |c.Bucket(d)| > 0 ==> Badge(d, |c.Bucket(d)|) in r
    ensures InRankOrder(r)
  {
    var e := BadgeIfAny(c, Easy);
    var m := BadgeIfAny(c, Medium);
    var h := BadgeIfAny(c, Hard);
    BadgesOfThree(c, e, m, h);
    e + m + h
  }

  lemma BadgesOfThree(c: Collection, e: seq<Badge>, m: seq<Badge>, h: seq<Badge>)
    requires e == BadgeIfAny(c, Easy) && m == BadgeIfAny(c, Medium) && h == BadgeIfAny(c, Hard)
    ensures forall i :: 0 <= i < |e + m + h| ==> BadgeFits(c, (e + m + h)[i])
    ensures forall d: Difficulty :: |c.Bucket(d)| > 0 ==> Badge(d, |c.Bucket(d)|) in e + m + h
    ensures InRankOrder(e + m + h)
  {
    var r := e + m + h;
    assert forall b :: b in r ==> b in e || b in m || b in h;
    forall d: Difficulty | |c.Bucket(d)| > 0
      ensures Badge(d, |c.Bucket(d)|) in r
    {
      match d
      case Easy => assert r[0] == e[0];
      case Medium => assert r[|e|] == m[0];
      case Hard => assert r[|e| + |m|] == h[0];
    }
  }

  /** `createCTFCard`: the collection's texts, its year label, its badges, and
      a click that opens this very collection. */
  function CreateCard(c: Collection): (card: Card)
    ensures card.title == c.title && card.status == c.status && card.description == c.description
    ensures card.totalChallenges == c.totalChallenges && card.opens == c
    ensures c.year.None? || c.year.value == 0 ==> card.year == DefaultYear
    ensures c.year.Some? && c.year.value != 0 ==> ParseInt(card.year) == Some(c.year.value)
    ensures c.year.Some? && c.year.value != 0 ==> card.year == IntToString(c.year.value)
    ensures forall i :: 0 <= i < |card.badges| ==> BadgeFits(c, card.badges[i])
    ensures forall d: Difficulty :: |c.Bucket(d)| > 0 ==> Badge(d, |c.Bucket(d)|) in card.badges
    ensures InRankOrder(card.badges)
  {
    Card(c.title, c.status, c.description, c.totalChallenges, YearLabel(c.year), Badges(c), c)
  }

  /** Each output so far is `f` of the input at the same position. */
  ghost predicate Pointwise<A, B>(outs: seq<B>, ins: seq<A>, f: A -> B) {
    |outs| <= |ins| && forall j :: 0 <= j < |outs| ==> outs[j] == f(ins[j])
  }

  lemma PointwiseStep<A, B>(outs: seq<B>, ins: seq<A>, f: A -> B)
    requires |outs| < |ins| && Pointwise(outs, ins, f)
    ensures Pointwise(outs + [f(ins[|outs|])], ins, f)
  {
    var next := outs + [f(ins[|outs|])];
    assert forall j :: 0 <= j < |outs| ==> next[j] == outs[j];
  }

  /** `loadCTFCards`: the placeholder for an empty list, otherwise the cards of
      the collections, one each, in the list's order. */
  method LoadCtfCards(data: seq<Collection>) returns (grid: Grid)
    ensures grid.NoCollections? <==> |data| == 0
    ensures grid.CardGrid? ==> |grid.cards| == |data|
    ensures grid.CardGrid? ==> forall i :: 0 <= i < |data| ==> grid.cards[i] == CreateCard(data[i])
  {
    if |data| == 0 {
      return NoCollections;
    }
    var cards: seq<Card> := [];
    var i := 0;
    while i < |data|
      invariant 0 <= i <= |data|
      invariant |cards| == i
      invariant Pointwise(cards, data, CreateCard)
    {
      PointwiseStep(cards, data, CreateCard);
      cards := cards + [CreateCard(data[i])];
      i := i + 1;
    }
    grid := CardGrid(cards);
  }

  // ---------------------------------------------------------------------------
  // Detail modal
  // ---------------------------------------------------------------------------

  /** One challenge in a difficulty pane, as `createAccordionItem` shows it. The
      folder row is a bare label: the page never fills in the folder's path. */
  datatype AccordionItem = AccordionItem(
    name: string,
    key: string,
    description: string,
    image: Option<string>,
    files: Option<string>,
    passwordFormat: string,
    showsFolderLabel: bool)

  /** A difficulty pane: the "No challenges available" placeholder, or items. */
  datatype Pane = NoChallenges | Items(items: seq<AccordionItem>)

  const FileSeparator: string := ", "

  /** `createAccordionItem`: the key the verify button carries decodes to the
      collection's id and the challenge's name, and each optional row appears
      exactly when its field is truthy. */
  function CreateAccordionItem(ch: Challenge, ctfId: int): (item: AccordionItem)
    ensures ctfId >= 0 ==> Decode(item.key) == DecodedKey(Some(ctfId), ch.name)
    ensures item.image.Some? <==> Truthy(ch.imageUrl)
    ensures item.files.Some? <==> ch.files.Some? && |ch.files.value| > 0
    ensures item.files.Some? ==> item.files.value == Join(ch.files.value, FileSeparator)
    ensures item.showsFolderLabel <==> Truthy(ch.localFolder)
  {
    var key := Encode(ctfId, ch.name);
    assert ctfId >= 0 ==> Decode(key) == DecodedKey(Some(ctfId), ch.name) by {
      if ctfId >= 0 { DecodeEncode(ctfId, ch.name); }
    }
    AccordionItem(
      ch.name,
      key,
      ch.description,
      if Truthy(ch.imageUrl) then ch.imageUrl else None,
      if ch.files.Some? && |ch.files.value| > 0 then Some(Join(ch.files.value, FileSeparator)) else None,
      ch.passwordFormat,
      Truthy(ch.localFolder))
  }

  /** `loadChallenges`: the placeholder for an empty bucket, otherwise one item
      per challenge in the bucket's order. */
  function LoadChallenges(bucket: seq<Challenge>, ctfId: int): (pane: Pane)
    ensures pane.NoChallenges? <==> |bucket| == 0
    ensures pane.Items? ==> |pane.items| == |bucket|
    ensures pane.Items? ==> forall i :: 0 <= i < |bucket| ==>
              pane.items[i].name == bucket[i].name && pane.items[i].key == Encode(ctfId, bucket[i].name)
  {
    if |bucket| == 0 then NoChallenges
    else Items(seq(|bucket|, i requires 0 <= i < |bucket| => CreateAccordionItem(bucket[i], ctfId)))
  }

  datatype Modal = Modal(
    title: string,
    status: string,
    description: string,
    githubUrl: string,
    answersUrl: string,
    easyCount: nat,
    mediumCount: nat,
    hardCount: nat,
    easyPane: Pane,
    mediumPane: Pane,
    hardPane: Pane,
    activeTab: Difficulty)
  {
    function Count(d: Difficulty): nat {
      match d
      case Easy => easyCount
      case Medium => mediumCount
      case Hard => hardCount
    }

    function PaneFor(d: Difficulty): Pane {
      match d
      case Easy => easyPane
      case Medium => mediumPane
      case Hard => hardPane
    }
  }

  /** `openModal`: whatever tab was active before, the modal opens on the easy
      tab; each difficulty shows its bucket's size and a pane of that bucket. */
  function OpenModal(c: Collection): (m: Modal)
    ensures m.activeTab == Easy
    ensures forall d: Difficulty :: m.Count(d) == |c.Bucket(d)|
    ensures forall d: Difficulty :: m.PaneFor(d) == LoadChallenges(c.Bucket(d), c.id)
    ensures forall d: Difficulty :: m.PaneFor(d).NoChallenges? <==> m.Count(d) == 0
  {
    Modal(
      c.title, c.status, c.description, c.githubUrl, c.answersUrl,
      |c.challenges.easy|, |c.challenges.medium|, |c.challenges.hard|,
      LoadChallenges(c.challenges.easy, c.id),
      LoadChallenges(c.challenges.medium, c.id),
      LoadChallenges(c.challenges.hard, c.id),
      Easy)
  }
}
