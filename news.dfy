/**
 * The news pages: the excerpt of an article's text, the split of the published articles into
 * featured and regular ones, and the home-page section's featured article and three others.
 */
module NewsLists {
  import opened Wrappers
  import opened Seqs
  import opened Text

  /** A row of the `news` table, as the pages read it. */
  datatype NewsItem = NewsItem(
    id: string,
    titolo: string,
    contenuto: string,
    pubblicata: bool,
    inEvidenza: bool,
    dataPubblicazione: int)

  /**
   * `truncateText`: a text no longer than `maxLength` is shown whole; a longer one is cut after
   * `maxLength` characters, trimmed, and followed by an ellipsis.
   */
  function TruncateText(text: string, maxLength: nat): (r: string)
    ensures |text| <= maxLength ==> r == text
    ensures |text| > maxLength ==> 3 <= |r| <= maxLength + 3 && r[|r| - 3..] == "..."
  {
    if |text| <= maxLength then text else Trim(text[..maxLength]) + "..."
  }

  /**
   * The excerpt of a long text is its first `maxLength` characters with the white space at both
   * ends removed, and nothing else, then "...": what is dropped before and after the kept slice
   * is white space, and the kept slice, when not empty, begins and ends with a visible character.
   */
  lemma TruncateIsSlice(text: string, maxLength: nat)
    requires |text| > maxLength
    ensures exists a, b :: 0 <= a <= b <= maxLength && TruncateText(text, maxLength) == text[a..b] + "..." &&
                           (forall k :: 0 <= k < a ==> IsSpace(text[k])) &&
                           (forall k :: b <= k < maxLength ==> IsSpace(text[k])) &&
                           (a < b ==> !IsSpace(text[a]) && !IsSpace(text[b - 1]))
  {
    var head := text[..maxLength];
    TrimIsSlice(head);
    var a := LeadingSpace(head);
    var kept := Trim(head);
    var b := a + |kept|;
    assert kept == text[a..b];
    assert TruncateText(text, maxLength) == text[a..b] + "...";
    forall k | 0 <= k < a ensures IsSpace(text[k]) {
      assert text[k] == head[k];
    }
    forall k | b <= k < maxLength ensures IsSpace(text[k]) {
      assert text[k] == head[k];
    }
    if a < b {
      assert kept[0] == text[a] && kept[|kept| - 1] == text[b - 1];
    }
  }

  /**
   * An article whose text begins with a visible character keeps a prefix of its first `maxLength`
   * characters, cut only where white space follows, and ending with a visible character.
   */
  lemma TruncateKeepsPrefix(text: string, maxLength: nat)
    requires |text| > maxLength && !IsSpace(text[0])
    ensures exists b :: 0 <= b <= maxLength && TruncateText(text, maxLength) == text[..b] + "..." &&
                        (forall k :: b <= k < maxLength ==> IsSpace(text[k])) &&
                        (maxLength > 0 ==> b > 0 && !IsSpace(text[b - 1]))
  {
    var head := text[..maxLength];
    assert TrimStart(head) == head;
    var e := TrimEnd(head);
    var b := |e|;
    assert e == text[..b];
    forall k | b <= k < maxLength ensures IsSpace(text[k]) {
      assert text[k] == head[k];
    }
  }

  /** The excerpt lengths the pages pass: the news page's cards and the home-page section's. */
  const FeaturedCardLength: nat := 250
  const RegularCardLength: nat := 120
  const SectionFeaturedLength: nat := 200
  const SectionOtherLength: nat := 80

  /**
   * The excerpt on a card of the news page: 250 characters on a featured article's card, 120 on
   * the others, plus the ellipsis; a text within the limit is shown whole.
   */
  function NewsPageExcerpt(item: NewsItem): (r: string)
    ensures |r| <= (if item.inEvidenza then FeaturedCardLength else RegularCardLength) + 3
    ensures |item.contenuto| <= (if item.inEvidenza then FeaturedCardLength else RegularCardLength) ==>
              r == item.contenuto
  {
    TruncateText(item.contenuto, if item.inEvidenza then FeaturedCardLength else RegularCardLength)
  }

  /**
   * The excerpt in the home section: 200 characters for the featured article, 80 for each of the
   * others, plus the ellipsis; a text within the limit is shown whole.
   */
  function SectionExcerpt(item: NewsItem, featuredSlot: bool): (r: string)
    ensures |r| <= (if featuredSlot then SectionFeaturedLength else SectionOtherLength) + 3
    ensures |item.contenuto| <= (if featuredSlot then SectionFeaturedLength else SectionOtherLength) ==>
              r == item.contenuto
  {
    TruncateText(item.contenuto, if featuredSlot then SectionFeaturedLength else SectionOtherLength)
  }

  /** `.eq("pubblicata", true)`: the news queries only ask for published articles. */
  function PublishedNews(table: seq<NewsItem>): (r: seq<NewsItem>)
    ensures forall k :: 0 <= k < |r| ==> r[k].pubblicata
    ensures forall k :: 0 <= k < |table| && table[k].pubblicata ==> table[k] in r
  {
    Filter(table, (n: NewsItem) => n.pubblicata)
  }

  /** The featured articles of the news page; none when the query gave no data. */
  function FeaturedNews(allNews: Option<seq<NewsItem>>): (r: seq<NewsItem>)
    ensures allNews.None? ==> r == []
    ensures forall k :: 0 <= k < |r| ==> r[k].inEvidenza
    ensures allNews.Some? ==> forall k :: 0 <= k < |allNews.value| && allNews.value[k].inEvidenza ==>
                                allNews.value[k] in r
  {
    if allNews.Some? then Filter(allNews.value, (n: NewsItem) => n.inEvidenza) else []
  }

  /** The other articles of the news page; none when the query gave no data. */
  function RegularNews(allNews: Option<seq<NewsItem>>): (r: seq<NewsItem>)
    ensures allNews.None? ==> r == []
    ensures forall k :: 0 <= k < |r| ==> !r[k].inEvidenza
    ensures allNews.Some? ==> forall k :: 0 <= k < |allNews.value| && !allNews.value[k].inEvidenza ==>
                                allNews.value[k] in r
  {
    if allNews.Some? then Filter(allNews.value, (n: NewsItem) => !n.inEvidenza) else []
  }

  /** The news page shows every published article once: featured or regular, never both. */
  lemma NewsPagePartition(allNews: seq<NewsItem>)
    ensures |FeaturedNews(Some(allNews))| + |RegularNews(Some(allNews))| == |allNews|
    ensures multiset(FeaturedNews(Some(allNews))) + multiset(RegularNews(Some(allNews))) == multiset(allNews)
  {
    FilterPartition(allNews, (n: NewsItem) => n.inEvidenza, (n: NewsItem) => !n.inEvidenza);
  }

  /** Both lists keep the query's order, newest first. */
  lemma NewsPageKeepsOrder(allNews: seq<NewsItem>)
    ensures IsSubseq(FeaturedNews(Some(allNews)), allNews)
    ensures IsSubseq(RegularNews(Some(allNews)), allNews)
  {
    FilterIsSubseq(allNews, (n: NewsItem) => n.inEvidenza);
    FilterIsSubseq(allNews, (n: NewsItem) => !n.inEvidenza);
  }

  /** Whether a recent article is shown beside the featured one: it must not be that article. */
  predicate NotFeatured(featured: Option<NewsItem>, n: NewsItem) {
    featured.None? || n.id != featured.value.id
  }

  /** `NotFeatured` beside a given featured article, as a filter. */
  function ShownBeside(featured: Option<NewsItem>): NewsItem -> bool {
    (n: NewsItem) => NotFeatured(featured, n)
  }

  /**
   * The home section's other articles: the first three recent ones that are not the featured
   * one, or all of them when there are fewer.
   */
  function OtherNews(recent: seq<NewsItem>, featured: Option<NewsItem>): (r: seq<NewsItem>)
    ensures FirstQualifying(r, recent, ShownBeside(featured), 3)
    ensures featured.Some? ==> forall k :: 0 <= k < |r| ==> r[k].id != featured.value.id
    ensures forall k :: 0 <= k < |r| ==> r[k] in recent
  {
    TakeFilterFirst(recent, ShownBeside(featured), 3);
    Take(Filter(recent, ShownBeside(featured)), 3)
  }

  /** The other articles keep the order of the query, newest first. */
  lemma OtherNewsKeepsOrder(recent: seq<NewsItem>, featured: Option<NewsItem>)
    ensures IsSubseq(OtherNews(recent, featured), recent)
  {
    var kept := Filter(recent, ShownBeside(featured));
    FilterIsSubseq(recent, ShownBeside(featured));
    PrefixIsSubseq(kept, |Take(kept, 3)|);
    SubseqTrans(Take(kept, 3), kept, recent);
  }

  /** Articles are told apart by their identifiers. */
  predicate DistinctIds(s: seq<NewsItem>) {
    forall i, j :: 0 <= i < |s| && 0 <= j < |s| && s[i].id == s[j].id ==> i == j
  }

  /**
   * The four recent articles the section asks for leave three once the featured one is dropped:
   * when it is among them, the others are the first three of the rest; when there is no featured
   * article, the first three.
   */
  lemma OtherNewsCount(recent: seq<NewsItem>, featured: Option<NewsItem>)
    requires DistinctIds(recent)
    ensures featured.None? ==> OtherNews(recent, featured) == Take(recent, 3)
    ensures featured.Some? && (exists k :: 0 <= k < |recent| && recent[k].id == featured.value.id) ==>
              |OtherNews(recent, featured)| == if |recent| - 1 < 3 then |recent| - 1 else 3
  {
    var shown := ShownBeside(featured);
    var hidden := (n: NewsItem) => !NotFeatured(featured, n);
    if featured.None? {
      FilterAll(recent, shown);
    } else if k :| 0 <= k < |recent| && recent[k].id == featured.value.id {
      FilterSingle(recent, hidden, k);
      FilterPartition(recent, hidden, shown);
    }
  }

  /** How the home section's two queries ended. */
  datatype SectionQueries =
    | Threw
    | Answered(featured: Option<seq<NewsItem>>, recent: Option<seq<NewsItem>>)

  /** What the home section shows: perhaps a featured article, and the other articles. */
  datatype SectionContent = SectionContent(featured: Option<NewsItem>, others: seq<NewsItem>)

  /** A featured article. */
  predicate IsFeatured(n: NewsItem) {
    n.inEvidenza
  }

  /** An article that is not featured. */
  predicate IsRegular(n: NewsItem) {
    !n.inEvidenza
  }

  /**
   * `NewsSection`: the featured article is the first the featured query returned, the others come
   * from the recent query without it; when the client throws, the fallback list gives its first
   * featured article, if it has one, and its first three that are not featured.
   */
  function SectionNews(queries: SectionQueries, fallback: seq<NewsItem>): (r: SectionContent)
    ensures queries.Answered? ==>
              r.featured == (if queries.featured.Some? && queries.featured.value != []
                             then Some(queries.featured.value[0]) else None)
    ensures queries.Answered? ==>
              r.others == (if queries.recent.Some? then OtherNews(queries.recent.value, r.featured) else [])
    ensures |r.others| <= 3
    ensures queries.Answered? && r.featured.Some? ==>
              forall k :: 0 <= k < |r.others| ==> r.others[k].id != r.featured.value.id
    ensures queries.Threw? ==> (r.featured.None? <==> forall k :: 0 <= k < |fallback| ==> !fallback[k].inEvidenza)
    ensures queries.Threw? && r.featured.Some? ==>
              exists k :: 0 <= k < |fallback| && fallback[k] == r.featured.value && fallback[k].inEvidenza &&
                          forall j :: 0 <= j < k ==> !fallback[j].inEvidenza
    ensures queries.Threw? ==> FirstQualifying(r.others, fallback, IsRegular, 3)
    ensures queries.Threw? ==> forall k :: 0 <= k < |r.others| ==> !r.others[k].inEvidenza
  {
    match queries
    case Threw =>
      TakeFilterFirst(fallback, IsRegular, 3);
      SectionContent(FindFirst(fallback, IsFeatured), Take(Filter(fallback, IsRegular), 3))
    case Answered(featuredRows, recentRows) =>
      var featured := if featuredRows.Some? && featuredRows.value != [] then Some(featuredRows.value[0]) else None;
      SectionContent(featured, if recentRows.Some? then OtherNews(recentRows.value, featured) else [])
  }

  /** With the fallback list the featured article is never repeated among the others. */
  lemma FallbackFeaturedNotRepeated(fallback: seq<NewsItem>)
    ensures SectionNews(Threw, fallback).featured.Some? ==>
              SectionNews(Threw, fallback).featured.value !in SectionNews(Threw, fallback).others
  {
  }
}
