/**
 * src/app/page.tsx: the home page lists public links by title and groups
 * them by category name; links without a category go to a trailing
 * "other" section. The section order is `Object.entries` order of the
 * grouping record: array-index-like names first, ascending by value, then
 * the others in first-appearance order.
 */
module HomePage {
  import opened Wrappers
  import opened Strings
  import opened Records
  import opened Queries

  /** `getLinks()`: the public links, each once, ascending by title. */
  method GetLinks(db: Db) returns (links: seq<Link>)
    requires WellKeyed(db)
    ensures forall i :: 0 <= i < |links| ==> links[i].id in db.links && db.links[links[i].id] == links[i] && links[i].isPublic
    ensures forall id :: id in db.links && db.links[id].isPublic ==> db.links[id] in links
    ensures forall i, j :: 0 <= i < j < |links| ==> links[i].id != links[j].id
    ensures forall i, j :: 0 <= i < j < |links| ==> LexLe(links[i].title, links[j].title)
  {
    var ks := OrderedKeys(db.links, (l: Link) => l.isPublic, (l: Link) => l.title);
    links := RowsOf(db.links, ks);
    forall id | id in db.links && db.links[id].isPublic
      ensures db.links[id] in links
    {
      var i :| 0 <= i < |ks| && ks[i] == id;
      assert links[i] == db.links[id];
    }
  }

  predicate HasCategoryNamed(l: Link, name: string) {
    l.category.Some? && l.category.value.name == name
  }

  /** The links of one category name, in input order. */
  function InCategory(links: seq<Link>, name: string): (r: seq<Link>)
    ensures forall l :: l in r <==> l in links && HasCategoryNamed(l, name)
    decreases |links|
  {
    if |links| == 0 then []
    else
      var last := links[|links| - 1];
      assert links == links[..|links| - 1] + [last];
      InCategory(links[..|links| - 1], name) + (if HasCategoryNamed(last, name) then [last] else [])
  }

  /** The links without a category, in input order. */
  function Uncategorized(links: seq<Link>): (r: seq<Link>)
    ensures forall l :: l in r <==> l in links && l.category.None?
    decreases |links|
  {
    if |links| == 0 then []
    else
      var last := links[|links| - 1];
      assert links == links[..|links| - 1] + [last];
      Uncategorized(links[..|links| - 1]) + (if last.category.None? then [last] else [])
  }

  /** The category names of the links, each once, in order of first appearance. */
  function CategoryNames(links: seq<Link>): (names: seq<string>)
    ensures forall i, j :: 0 <= i < j < |names| ==> names[i] != names[j]
    ensures forall n :: n in names <==> exists l :: l in links && HasCategoryNamed(l, n)
    decreases |links|
  {
    if |links| == 0 then []
    else
      var prefix := links[..|links| - 1];
      var last := links[|links| - 1];
      var prev := CategoryNames(prefix);
      assert links == prefix + [last];
      assert forall l :: l in links <==> l in prefix || l == last;
      if last.category.Some? && last.category.value.name !in prev then
        assert HasCategoryNamed(last, last.category.value.name);
        prev + [last.category.value.name]
      else prev
  }

  datatype Bucket = Bucket(name: string, links: seq<Link>)

  /** `linksByCategory` (as its entries in insertion order) and `uncategorizedLinks`. */
  datatype Grouping = Grouping(byCategory: seq<Bucket>, uncategorized: seq<Link>)

  /** The position of the bucket for `name`, or -1. */
  function BucketIndex(bs: seq<Bucket>, name: string): (i: int)
    ensures -1 <= i < |bs|
    ensures i >= 0 ==> bs[i].name == name
    ensures i == -1 ==> forall j :: 0 <= j < |bs| ==> bs[j].name != name
    decreases |bs|
  {
    if |bs| == 0 then -1
    else if bs[|bs| - 1].name == name then |bs| - 1
    else BucketIndex(bs[..|bs| - 1], name)
  }

  /** One step of the `forEach`. */
  function AddLink(g: Grouping, l: Link): Grouping {
    match l.category
    case None => g.(uncategorized := g.uncategorized + [l])
    case Some(c) =>
      var i := BucketIndex(g.byCategory, c.name);
      if i < 0 then g.(byCategory := g.byCategory + [Bucket(c.name, [l])])
      else g.(byCategory := g.byCategory[i := Bucket(c.name, g.byCategory[i].links + [l])])
  }

  /**
   * `g` is the grouping of `links`: the buckets follow first appearance of
   * the category names, every bucket holds exactly its category's links in
   * input order, and the uncategorized list holds exactly the links without
   * a category, in input order.
   */
  ghost predicate Groups(g: Grouping, links: seq<Link>) {
    && |g.byCategory| == |CategoryNames(links)|
    && (forall i :: 0 <= i < |g.byCategory| ==> g.byCategory[i].name == CategoryNames(links)[i])
    && (forall i :: 0 <= i < |g.byCategory| ==> g.byCategory[i].links == InCategory(links, g.byCategory[i].name))
    && g.uncategorized == Uncategorized(links)
  }

  /** One `forEach` step keeps the grouping in step with the links seen so far. */
  lemma AddLinkGroups(g: Grouping, prefix: seq<Link>, last: Link)
    requires Groups(g, prefix)
    ensures Groups(AddLink(g, last), prefix + [last])
  {
    var links := prefix + [last];
    assert links[..|links| - 1] == prefix;
    match last.category
    case None =>
      assert CategoryNames(links) == CategoryNames(prefix);
    case Some(c) =>
      var i := BucketIndex(g.byCategory, c.name);
      if i < 0 {
        AddNewBucket(g, prefix, last);
      } else {
        assert c.name == CategoryNames(prefix)[i];
        assert CategoryNames(links) == CategoryNames(prefix);
      }
  }

  lemma UnseenNameHasNoLinks(links: seq<Link>, name: string)
    requires name !in CategoryNames(links)
    ensures InCategory(links, name) == []
  {
  }

  /** One more link extends its own category's list and no other. */
  lemma InCategoryAppend(prefix: seq<Link>, last: Link, name: string)
    ensures InCategory(prefix + [last], name) == InCategory(prefix, name) + (if HasCategoryNamed(last, name) then [last] else [])
  {
    assert (prefix + [last])[..|prefix|] == prefix;
  }

  /** The step that opens a bucket for a category name not seen before. */
  lemma AddNewBucket(g: Grouping, prefix: seq<Link>, last: Link)
    requires Groups(g, prefix)
    requires last.category.Some? && BucketIndex(g.byCategory, last.category.value.name) < 0
    ensures Groups(AddLink(g, last), prefix + [last])
  {
    var links := prefix + [last];
    var names := CategoryNames(prefix);
    var name := last.category.value.name;
    assert links[..|links| - 1] == prefix;
    assert name !in names;
    assert CategoryNames(links) == names + [name];
    var g' := AddLink(g, last);
    assert g'.byCategory == g.byCategory + [Bucket(name, [last])];
    forall i | 0 <= i < |g'.byCategory|
      ensures g'.byCategory[i].name == CategoryNames(links)[i]
      ensures g'.byCategory[i].links == InCategory(links, g'.byCategory[i].name)
    {
      InCategoryAppend(prefix, last, g'.byCategory[i].name);
      if i < |g.byCategory| {
        assert g'.byCategory[i] == g.byCategory[i];
        assert names[i] in names;
      } else {
        UnseenNameHasNoLinks(prefix, name);
      }
    }
  }


  /** The grouping loop. */
  function Group(links: seq<Link>): (g: Grouping)
    ensures Groups(g, links)
    decreases |links|
  {
    if |links| == 0 then Grouping([], [])
    else
      var prefix := links[..|links| - 1];
      var last := links[|links| - 1];
      AddLinkGroups(Group(prefix), prefix, last);
      assert prefix + [last] == links;
      AddLink(Group(prefix), last)
  }

  /** Every link is in exactly one place: its category's bucket, or the uncategorized list. */
  lemma EveryLinkPlacedOnce(links: seq<Link>, l: Link)
    requires l in links
    ensures var g := Group(links);
      if l.category.Some? then
        && l !in g.uncategorized
        && (exists i :: 0 <= i < |g.byCategory| && g.byCategory[i].name == l.category.value.name && l in g.byCategory[i].links)
        && forall i :: 0 <= i < |g.byCategory| && l in g.byCategory[i].links ==> g.byCategory[i].name == l.category.value.name
      else
        && l in g.uncategorized
        && forall i :: 0 <= i < |g.byCategory| ==> l !in g.byCategory[i].links
  {
    var g := Group(links);
    if l.category.Some? {
      var n := l.category.value.name;
      assert n in CategoryNames(links);
      var i :| 0 <= i < |CategoryNames(links)| && CategoryNames(links)[i] == n;
      assert g.byCategory[i].name == n;
    }
  }

  /** No category bucket is empty. */
  lemma NoEmptyBucket(links: seq<Link>)
    ensures forall i :: 0 <= i < |Group(links).byCategory| ==> Group(links).byCategory[i].links != []
  {
    var g := Group(links);
    forall i | 0 <= i < |g.byCategory|
      ensures g.byCategory[i].links != []
    {
      var n := g.byCategory[i].name;
      assert n in CategoryNames(links);
      var l :| l in links && HasCategoryNamed(l, n);
      assert l in g.byCategory[i].links;
    }
  }

  // ---------------------------------------------------------------------------
  // Object.entries order

  /** A canonical array index: "0" or a digit string without leading zero, below 2^32 - 1. */
  predicate IsArrayIndex(s: string) {
    && |s| > 0 && AllDigits(s) && (s == "0" || s[0] != '0')
    && DigitsValue(s) < 0xFFFF_FFFF
  }

  /** The numeric value of an array-index name, and -1 for any other name. */
  function IndexKey(b: Bucket): int {
    if IsArrayIndex(b.name) then DigitsValue(b.name) else -1
  }

  predicate IndexSorted(bs: seq<Bucket>) {
    forall i, j :: 0 <= i < j < |bs| ==> IndexKey(bs[i]) <= IndexKey(bs[j])
  }

  function InsertByIndex(b: Bucket, bs: seq<Bucket>): (r: seq<Bucket>)
    requires IndexSorted(bs)
    ensures IndexSorted(r)
    ensures |r| == |bs| + 1
    ensures forall x :: x in r <==> x in bs || x == b
    decreases |bs|
  {
    if |bs| == 0 || IndexKey(b) <= IndexKey(bs[0]) then [b] + bs
    else
      var rest := InsertByIndex(b, bs[1..]);
      assert forall x :: x in bs <==> x == bs[0] || x in bs[1..];
      assert forall j :: 0 <= j < |rest| ==> IndexKey(bs[0]) <= IndexKey(rest[j]) by {
        forall j | 0 <= j < |rest| ensures IndexKey(bs[0]) <= IndexKey(rest[j]) {
          assert rest[j] in rest;
        }
      }
      [bs[0]] + rest
  }

  /** The buckets whose names are (or are not) array indices, in order. */
  function FilterIndex(bs: seq<Bucket>, index: bool): (r: seq<Bucket>)
    ensures forall b :: b in r <==> b in bs && IsArrayIndex(b.name) == index
    decreases |bs|
  {
    if |bs| == 0 then []
    else
      assert forall x :: x in bs <==> x == bs[0] || x in bs[1..];
      (if IsArrayIndex(bs[0].name) == index then [bs[0]] else []) + FilterIndex(bs[1..], index)
  }

  /** Buckets with array-index names, ascending by numeric value. */
  function IndexBuckets(bs: seq<Bucket>): (r: seq<Bucket>)
    ensures IndexSorted(r)
    ensures |r| == |FilterIndex(bs, true)|
    ensures forall x :: x in r <==> x in bs && IsArrayIndex(x.name)
    decreases |bs|
  {
    if |bs| == 0 then []
    else
      assert forall x :: x in bs <==> x == bs[0] || x in bs[1..];
      if IsArrayIndex(bs[0].name) then InsertByIndex(bs[0], IndexBuckets(bs[1..]))
      else IndexBuckets(bs[1..])
  }

  lemma {:induction false} FilterSizes(bs: seq<Bucket>)
    ensures |FilterIndex(bs, true)| + |FilterIndex(bs, false)| == |bs|
    decreases |bs|
  {
    if |bs| > 0 {
      FilterSizes(bs[1..]);
    }
  }

  /**
   * `Object.entries(linksByCategory)`: the array-index names ascending by
   * value, then every other name in insertion order; nothing lost or added.
   */
  function Entries(bs: seq<Bucket>): (r: seq<Bucket>)
    ensures |r| == |bs|
    ensures forall x :: x in r <==> x in bs
    ensures forall i, j :: 0 <= i < j < |r| && IsArrayIndex(r[j].name) ==> IsArrayIndex(r[i].name) && IndexKey(r[i]) <= IndexKey(r[j])
  {
    FilterSizes(bs);
    var r := IndexBuckets(bs) + FilterIndex(bs, false);
    assert forall i :: 0 <= i < |r| ==> (IsArrayIndex(r[i].name) <==> i < |IndexBuckets(bs)|) by {
      forall i | 0 <= i < |r| ensures IsArrayIndex(r[i].name) <==> i < |IndexBuckets(bs)| {
        if i < |IndexBuckets(bs)| {
          assert r[i] in IndexBuckets(bs);
        } else {
          assert r[i] in FilterIndex(bs, false);
        }
      }
    }
    r
  }

  lemma {:induction false} NoIndexFilters(bs: seq<Bucket>)
    requires forall i :: 0 <= i < |bs| ==> !IsArrayIndex(bs[i].name)
    ensures FilterIndex(bs, false) == bs
    ensures FilterIndex(bs, true) == []
    decreases |bs|
  {
    if |bs| > 0 {
      NoIndexFilters(bs[1..]);
      assert bs == [bs[0]] + bs[1..];
    }
  }

  /** Without array-index-like names the sections follow first appearance. */
  lemma {:induction false} EntriesKeepInsertionOrder(bs: seq<Bucket>)
    requires forall i :: 0 <= i < |bs| ==> !IsArrayIndex(bs[i].name)
    ensures Entries(bs) == bs
  {
    NoIndexFilters(bs);
    assert |IndexBuckets(bs)| == 0;
  }

  /** A rendered section: a category heading with its cards, or the trailing "other" section. */
  datatype Section = CategorySection(name: string, links: seq<Link>) | OtherSection(links: seq<Link>)

  function CategorySections(es: seq<Bucket>): (r: seq<Section>)
    ensures |r| == |es|
    ensures forall i :: 0 <= i < |r| ==> r[i] == CategorySection(es[i].name, es[i].links)
    decreases |es|
  {
    if |es| == 0 then [] else [CategorySection(es[0].name, es[0].links)] + CategorySections(es[1..])
  }

  /**
   * What the page renders for a grouping: one section per category entry,
   * in entry order, then "other" exactly when some link has no category.
   */
  function Sections(g: Grouping): (r: seq<Section>)
    ensures |r| == |g.byCategory| + (if |g.uncategorized| > 0 then 1 else 0)
    ensures forall i :: 0 <= i < |g.byCategory| ==> r[i].CategorySection? && Bucket(r[i].name, r[i].links) in g.byCategory
    ensures (exists i :: 0 <= i < |r| && r[i].OtherSection?) <==> |g.uncategorized| > 0
    ensures |g.uncategorized| > 0 ==> r[|r| - 1] == OtherSection(g.uncategorized)
    // the category sections are the buckets in `Object.entries` order, one section each
    ensures forall i :: 0 <= i < |g.byCategory| ==>
      r[i] == CategorySection(Entries(g.byCategory)[i].name, Entries(g.byCategory)[i].links)
  {
    var es := Entries(g.byCategory);
    var cats := CategorySections(es);
    var tail := if |g.uncategorized| > 0 then [OtherSection(g.uncategorized)] else [];
    CategoryPart(es, g.byCategory);
    AppendTail(cats, tail);
    cats + tail
  }

  /** Sections built from a reordering of the buckets are category sections of those buckets. */
  lemma CategoryPart(es: seq<Bucket>, bs: seq<Bucket>)
    requires forall x :: x in es <==> x in bs
    ensures forall i :: 0 <= i < |es| ==>
      CategorySections(es)[i].CategorySection? && Bucket(CategorySections(es)[i].name, CategorySections(es)[i].links) in bs
  {
    assert forall i :: 0 <= i < |es| ==> es[i] in es;
  }

  /** Category sections followed by "other" sections: the kinds split exactly at the join. */
  lemma AppendTail(cats: seq<Section>, tail: seq<Section>)
    requires forall i :: 0 <= i < |cats| ==> cats[i].CategorySection?
    requires forall i :: 0 <= i < |tail| ==> tail[i].OtherSection?
    ensures forall i :: 0 <= i < |cats| ==> (cats + tail)[i] == cats[i]
    ensures forall i :: 0 <= i < |tail| ==> (cats + tail)[|cats| + i] == tail[i]
    ensures (exists i :: 0 <= i < |cats + tail| && (cats + tail)[i].OtherSection?) <==> |tail| > 0
  {
    if |tail| > 0 {
      assert (cats + tail)[|cats|] == tail[0];
    }
  }

  /** The uncategorized list is non-empty exactly when some link has no category. */
  lemma UncategorizedNonEmpty(links: seq<Link>)
    ensures |Uncategorized(links)| > 0 <==> exists l :: l in links && l.category.None?
  {
    var u := Uncategorized(links);
    if |u| > 0 {
      assert u[0] in u;
    }
  }

  /** A link list drawn from the public rows of `db`, with every public row in it. */
  ghost predicate PublicRows(db: Db, links: seq<Link>) {
    && (forall i :: 0 <= i < |links| ==> links[i].id in db.links && db.links[links[i].id] == links[i] && links[i].isPublic)
    && (forall id :: id in db.links && db.links[id].isPublic ==> db.links[id] in links)
  }

  lemma PublicUncategorized(db: Db, links: seq<Link>)
    requires PublicRows(db, links)
    ensures (exists l :: l in links && l.category.None?) <==>
      exists id :: id in db.links && db.links[id].isPublic && db.links[id].category.None?
  {
    if exists l :: l in links && l.category.None? {
      var l :| l in links && l.category.None?;
      var i :| 0 <= i < |links| && links[i] == l;
      assert db.links[links[i].id] == l;
    }
  }

  /** Non-empty buckets render as non-empty sections; "other" only appears when it has links. */
  lemma SectionsKeepNonEmpty(g: Grouping)
    requires forall i :: 0 <= i < |g.byCategory| ==> g.byCategory[i].links != []
    ensures forall i :: 0 <= i < |Sections(g)| ==> Sections(g)[i].links != []
  {
    var r := Sections(g);
    forall i | 0 <= i < |r|
      ensures r[i].links != []
    {
      if i < |g.byCategory| {
        var b := Bucket(r[i].name, r[i].links);
        assert b in g.byCategory;
        var k :| 0 <= k < |g.byCategory| && g.byCategory[k] == b;
      } else {
        assert r[i] == OtherSection(g.uncategorized);
      }
    }
  }

  /**
   * Without array-index-like category names the page renders one section per
   * category, in order of first appearance, holding exactly that category's
   * links in list order; "other" comes last.
   */
  lemma SectionOrder(links: seq<Link>)
    requires forall n :: n in CategoryNames(links) ==> !IsArrayIndex(n)
    ensures |Sections(Group(links))| == |CategoryNames(links)| + (if |Uncategorized(links)| > 0 then 1 else 0)
    ensures forall i :: 0 <= i < |CategoryNames(links)| ==>
      Sections(Group(links))[i] == CategorySection(CategoryNames(links)[i], InCategory(links, CategoryNames(links)[i]))
  {
    var g := Group(links);
    var names := CategoryNames(links);
    assert forall i :: 0 <= i < |g.byCategory| ==> !IsArrayIndex(g.byCategory[i].name) by {
      forall i | 0 <= i < |g.byCategory|
        ensures !IsArrayIndex(g.byCategory[i].name)
      {
        assert g.byCategory[i].name == names[i];
        assert names[i] in names;
      }
    }
    EntriesKeepInsertionOrder(g.byCategory);
  }

  /** Every rendered section has at least one card. */
  lemma SectionsNonEmpty(links: seq<Link>)
    ensures forall i :: 0 <= i < |Sections(Group(links))| ==> Sections(Group(links))[i].links != []
  {
    NoEmptyBucket(links);
    SectionsKeepNonEmpty(Group(links));
  }

  /** The list the page groups: every public row once, ascending by title. */
  ghost predicate HomeListing(db: Db, links: seq<Link>) {
    && PublicRows(db, links)
    && (forall i, j :: 0 <= i < j < |links| ==> links[i].id != links[j].id)
    && (forall i, j :: 0 <= i < j < |links| ==> LexLe(links[i].title, links[j].title))
  }

  /** The home page: public links by title, grouped, in render order. */
  method Home(db: Db) returns (sections: seq<Section>)
    requires WellKeyed(db)
    ensures exists links :: HomeListing(db, links) && sections == Sections(Group(links))
    ensures forall i :: 0 <= i < |sections| ==> sections[i].links != []
    ensures (exists i :: 0 <= i < |sections| && sections[i].OtherSection?) <==>
      exists id :: id in db.links && db.links[id].isPublic && db.links[id].category.None?
  {
    var links := GetLinks(db);
    assert HomeListing(db, links);
    PublicUncategorized(db, links);
    UncategorizedNonEmpty(links);
    SectionsNonEmpty(links);
    sections := Sections(Group(links));
  }
}
