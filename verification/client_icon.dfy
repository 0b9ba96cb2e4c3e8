/**
 * src/lib/client-utils.ts: the browser-side icon search. The function
 * builds an ordered list of candidate image URLs (well-known paths, then
 * for a local-network site the page's icon link tags and its first logo
 * image, then the page's icon link tags fetched without credentials) and
 * returns the first that loads, or a drawn letter badge. Loading, fetching
 * and drawing are outcomes passed in; the order of attempts is the model.
 */
module ClientIcon {
  import opened Wrappers
  import opened Js
  import opened Strings
  import opened Urls
  import opened Records
  import opened Locality
  import IconRoute
  import LocalIconRoute

  /** Which attempt a candidate belongs to; each has its own timeout, and the logo is cropped. */
  datatype Stage = WellKnown | LocalLinkTag | LocalLogo | PageLinkTag

  function StageRank(s: Stage): nat {
    match s
    case WellKnown => 0
    case LocalLinkTag => 1
    case LocalLogo => 2
    case PageLinkTag => 3
  }

  datatype Candidate = Candidate(stage: Stage, url: string)

  /** A `<link>` element: its `rel` and its `href` attribute, if present. */
  datatype LinkTag = LinkTag(rel: string, href: Option<string>)

  /** An `<img>` element's `src`, `alt` and `class` attributes. */
  datatype ImgTag = ImgTag(src: Option<string>, alt: Option<string>, className: Option<string>)

  /** A fetched and parsed HTML page, its elements in document order. */
  datatype Page = Page(links: seq<LinkTag>, images: seq<ImgTag>)

  /** The outside world as one value. */
  datatype Env = Env(
    inBrowser: bool,
    parse: Parser,
    resolve: Resolver,
    /** The credentialed fetch of the page (for local-network sites): the page when the response is ok. */
    localPage: Option<Page>,
    /** The credential-less fetch of the page: the page when the response is ok. */
    publicPage: Option<Page>,
    /** The outcome of loading a candidate into an image and a canvas. */
    load: Candidate -> Option<string>,
    /** Whether a 2-D canvas context is available for the badge. */
    canvasOk: bool)

  const IconPaths: seq<string> := ["/favicon.ico", "/favicon.png", "/apple-touch-icon.png", "/apple-touch-icon-precomposed.png"]

  /** The `rel` values searched, in the order their groups are concatenated. */
  const IconRels: seq<string> := ["icon", "shortcut icon", "apple-touch-icon", "apple-touch-icon-precomposed"]

  /** The well-known paths under the origin, in order. */
  function WellKnownCandidates(origin: string): (cs: seq<Candidate>)
    ensures |cs| == 4
    ensures forall i :: 0 <= i < 4 ==> cs[i] == Candidate(WellKnown, origin + IconPaths[i])
  {
    seq(4, i requires 0 <= i < 4 => Candidate(WellKnown, origin + IconPaths[i]))
  }

  /** Every element's rank lies in [lo, hi], and ranks never go down along the sequence. */
  predicate RanksWithin<T>(xs: seq<T>, rank: T -> nat, lo: nat, hi: nat) {
    && (forall i :: 0 <= i < |xs| ==> lo <= rank(xs[i]) <= hi)
    && (forall i, j :: 0 <= i < j < |xs| ==> rank(xs[i]) <= rank(xs[j]))
  }

  /** Two rank-sorted runs whose ranges do not overlap concatenate into a rank-sorted run. */
  lemma ConcatRanks<T>(a: seq<T>, b: seq<T>, rank: T -> nat, lo: nat, mid: nat, mid': nat, hi: nat)
    requires RanksWithin(a, rank, lo, mid) && RanksWithin(b, rank, mid', hi) && lo <= mid <= mid' <= hi
    ensures RanksWithin(a + b, rank, lo, hi)
    ensures forall i :: |a| <= i < |a + b| ==> mid' <= rank((a + b)[i])
    ensures forall i :: 0 <= i < |a| ==> rank((a + b)[i]) <= mid
  {
    var ab := a + b;
    assert forall i :: 0 <= i < |ab| ==> ab[i] == if i < |a| then a[i] else b[i - |a|];
  }

  /** A run whose elements all have rank k. */
  lemma SameRank<T>(xs: seq<T>, rank: T -> nat, k: nat)
    requires forall x :: x in xs ==> rank(x) == k
    ensures RanksWithin(xs, rank, k, k)
  {
    assert forall i :: 0 <= i < |xs| ==> xs[i] in xs;
  }

  /** `link[rel="…"]`: attribute values compare ASCII case-insensitively in an HTML document. */
  predicate RelIs(t: LinkTag, rel: string) {
    Lower(t.rel) == rel
  }

  /** The `<link>` elements with one `rel`, in document order. */
  function WithRel(links: seq<LinkTag>, rel: string): (r: seq<LinkTag>)
    ensures forall t :: t in r <==> t in links && RelIs(t, rel)
    decreases |links|
  {
    if |links| == 0 then []
    else (if RelIs(links[0], rel) then [links[0]] else []) + WithRel(links[1..], rel)
  }

  /** Selection keeps document order: the matches in `a + b` are those in `a`, then those in `b`. */
  lemma {:induction false} WithRelConcat(a: seq<LinkTag>, b: seq<LinkTag>, rel: string)
    ensures WithRel(a + b, rel) == WithRel(a, rel) + WithRel(b, rel)
    decreases |a|
  {
    if |a| == 0 {
      assert a + b == b;
    } else {
      assert (a + b)[0] == a[0];
      assert (a + b)[1..] == a[1..] + b;
      WithRelConcat(a[1..], b, rel);
    }
  }

  /** The position of a tag's `rel` in the search order (4 when it is none of them). */
  function RelRank(t: LinkTag): nat {
    if RelIs(t, IconRels[0]) then 0
    else if RelIs(t, IconRels[1]) then 1
    else if RelIs(t, IconRels[2]) then 2
    else if RelIs(t, IconRels[3]) then 3
    else 4
  }

  /** `iconLinks`: the four groups concatenated, so every "icon" precedes every "shortcut icon" and so on. */
  function IconLinkTags(links: seq<LinkTag>): (r: seq<LinkTag>)
    ensures forall t :: t in r <==> t in links && RelRank(t) < 4
    ensures forall i, j :: 0 <= i < j < |r| ==> RelRank(r[i]) <= RelRank(r[j])
  {
    var g0 := WithRel(links, IconRels[0]);
    var g1 := WithRel(links, IconRels[1]);
    var g2 := WithRel(links, IconRels[2]);
    var g3 := WithRel(links, IconRels[3]);
    SameRank(g0, RelRank, 0);
    SameRank(g1, RelRank, 1);
    SameRank(g2, RelRank, 2);
    SameRank(g3, RelRank, 3);
    ConcatRanks(g0, g1, RelRank, 0, 0, 1, 1);
    ConcatRanks(g0 + g1, g2, RelRank, 0, 1, 2, 2);
    ConcatRanks(g0 + g1 + g2, g3, RelRank, 0, 2, 3, 3);
    g0 + g1 + g2 + g3
  }

  /** The attempt one tag contributes: its resolved `href`, or nothing when `href` is empty or does not resolve. */
  function TagCandidate(stage: Stage, t: LinkTag, origin: string, resolve: Resolver): (cs: seq<Candidate>)
    ensures |cs| <= 1
    ensures |cs| == 1 <==> Truthy(t.href) && resolve(t.href.value, origin).Some?
    ensures |cs| == 1 ==> cs[0] == Candidate(stage, resolve(t.href.value, origin).value)
  {
    if Truthy(t.href) && resolve(t.href.value, origin).Some? then [Candidate(stage, resolve(t.href.value, origin).value)] else []
  }

  /** Each tag with a non-empty `href` that resolves against the origin, as a candidate of `stage`. */
  function HrefCandidates(stage: Stage, tags: seq<LinkTag>, origin: string, resolve: Resolver): (cs: seq<Candidate>)
    ensures |cs| <= |tags|
    ensures forall c :: c in cs ==> c.stage == stage
    ensures forall c :: c in cs <==> exists t :: t in tags && Truthy(t.href) && resolve(t.href.value, origin) == Some(c.url) && c.stage == stage
    decreases |tags|
  {
    if |tags| == 0 then []
    else
      var t := tags[0];
      var rest := HrefCandidates(stage, tags[1..], origin, resolve);
      assert forall x :: x in tags <==> x == t || x in tags[1..];
      TagCandidate(stage, t, origin, resolve) + rest
  }

  /** A single tag yields exactly its own attempt. */
  lemma HrefCandidatesSingle(stage: Stage, t: LinkTag, origin: string, resolve: Resolver)
    ensures HrefCandidates(stage, [t], origin, resolve) == TagCandidate(stage, t, origin, resolve)
  {
    assert [t][1..] == [];
  }

  /** Attempts follow tag order: the candidates of `a + b` are those of `a`, then those of `b`. */
  lemma {:induction false} HrefCandidatesConcat(stage: Stage, a: seq<LinkTag>, b: seq<LinkTag>, origin: string, resolve: Resolver)
    ensures HrefCandidates(stage, a + b, origin, resolve) == HrefCandidates(stage, a, origin, resolve) + HrefCandidates(stage, b, origin, resolve)
    decreases |a|
  {
    if |a| == 0 {
      assert a + b == b;
    } else {
      assert (a + b)[0] == a[0];
      assert (a + b)[1..] == a[1..] + b;
      HrefCandidatesConcat(stage, a[1..], b, origin, resolve);
    }
  }

  /**
   * Within a stage, every attempt from an "icon" tag comes before every
   * attempt from a "shortcut icon" tag, and so on through the four `rel`
   * values; inside one `rel` the tags are tried in document order.
   */
  lemma LinkTagAttemptsByRel(stage: Stage, links: seq<LinkTag>, origin: string, resolve: Resolver)
    ensures HrefCandidates(stage, IconLinkTags(links), origin, resolve) ==
      HrefCandidates(stage, WithRel(links, "icon"), origin, resolve)
      + HrefCandidates(stage, WithRel(links, "shortcut icon"), origin, resolve)
      + HrefCandidates(stage, WithRel(links, "apple-touch-icon"), origin, resolve)
      + HrefCandidates(stage, WithRel(links, "apple-touch-icon-precomposed"), origin, resolve)
  {
    var g0 := WithRel(links, IconRels[0]);
    var g1 := WithRel(links, IconRels[1]);
    var g2 := WithRel(links, IconRels[2]);
    var g3 := WithRel(links, IconRels[3]);
    assert IconLinkTags(links) == g0 + g1 + g2 + g3;
    HrefCandidatesConcat(stage, g0 + g1 + g2, g3, origin, resolve);
    HrefCandidatesConcat(stage, g0 + g1, g2, origin, resolve);
    HrefCandidatesConcat(stage, g0, g1, origin, resolve);
  }

  /** The logo filter: a non-empty `src`, and "logo" in the src, alt or class, or "icon" in the src, ignoring case. */
  predicate LooksLikeLogo(img: ImgTag) {
    && Truthy(img.src)
    && (|| Contains(Lower(img.src.value), "logo")
        || Contains(Lower(OrElse(img.alt, "")), "logo")
        || Contains(Lower(OrElse(img.className, "")), "logo")
        || Contains(Lower(img.src.value), "icon"))
  }

  /** `logoImages[0]`: the first image that passes the filter. */
  function FirstLogo(images: seq<ImgTag>): (r: Option<ImgTag>)
    ensures r.None? <==> forall i :: 0 <= i < |images| ==> !LooksLikeLogo(images[i])
    ensures r.Some? ==> exists k :: (0 <= k < |images| && images[k] == r.value && LooksLikeLogo(r.value)
      && forall j :: 0 <= j < k ==> !LooksLikeLogo(images[j]))
    decreases |images|
  {
    if |images| == 0 then None
    else if LooksLikeLogo(images[0]) then Some(images[0])
    else
      var r := FirstLogo(images[1..]);
      if r.Some? then
        var k :| 0 <= k < |images| - 1 && images[1..][k] == r.value && LooksLikeLogo(r.value)
          && forall j :: 0 <= j < k ==> !LooksLikeLogo(images[1..][j]);
        assert images[k + 1] == r.value;
        r
      else r
  }

  /** The single logo attempt: only the first logo image, when its `src` resolves. */
  function LogoCandidates(images: seq<ImgTag>, origin: string, resolve: Resolver): (cs: seq<Candidate>)
    ensures |cs| <= 1
    ensures |cs| == 1 ==>
      cs[0].stage == LocalLogo && FirstLogo(images).Some? && resolve(FirstLogo(images).value.src.value, origin) == Some(cs[0].url)
    ensures FirstLogo(images).Some? && resolve(FirstLogo(images).value.src.value, origin).Some? ==>
      cs == [Candidate(LocalLogo, resolve(FirstLogo(images).value.src.value, origin).value)]
  {
    match FirstLogo(images)
    case None => []
    case Some(img) =>
      match resolve(img.src.value, origin)
      case None => []
      case Some(u) => [Candidate(LocalLogo, u)]
  }

  /** The stage rank of a candidate, the key the attempt order is sorted by. */
  function CandidateRank(c: Candidate): nat {
    StageRank(c.stage)
  }

  /** The candidates of the credentialed local-page stage: its link tags, then the logo. */
  function LocalCandidates(page: Page, origin: string, resolve: Resolver): (cs: seq<Candidate>)
    ensures RanksWithin(cs, CandidateRank, 1, 2)
  {
    var tags := HrefCandidates(LocalLinkTag, IconLinkTags(page.links), origin, resolve);
    var logo := LogoCandidates(page.images, origin, resolve);
    SameRank(tags, CandidateRank, 1);
    SameRank(logo, CandidateRank, 2);
    ConcatRanks(tags, logo, CandidateRank, 1, 1, 2, 2);
    tags + logo
  }

  /** The candidates of the credential-less page stage. */
  function PageCandidates(page: Page, origin: string, resolve: Resolver): (cs: seq<Candidate>)
    ensures RanksWithin(cs, CandidateRank, 3, 3)
  {
    var tags := HrefCandidates(PageLinkTag, IconLinkTags(page.links), origin, resolve);
    SameRank(tags, CandidateRank, 3);
    tags
  }

  /**
   * What each page stage tries: the local stage its link tags and then the
   * single logo attempt, the page stage only its link tags.
   */
  lemma StageRuns(page: Page, origin: string, resolve: Resolver)
    ensures var tags := HrefCandidates(LocalLinkTag, IconLinkTags(page.links), origin, resolve);
      var local := LocalCandidates(page, origin, resolve);
      |local| == |tags| + |LogoCandidates(page.images, origin, resolve)|
      && local[..|tags|] == tags && local[|tags|..] == LogoCandidates(page.images, origin, resolve)
    ensures PageCandidates(page, origin, resolve) == HrefCandidates(PageLinkTag, IconLinkTags(page.links), origin, resolve)
  {
    var tags := HrefCandidates(LocalLinkTag, IconLinkTags(page.links), origin, resolve);
    var logo := LogoCandidates(page.images, origin, resolve);
    assert LocalCandidates(page, origin, resolve) == tags + logo;
    assert (tags + logo)[..|tags|] == tags;
    assert (tags + logo)[|tags|..] == logo;
  }

  /**
   * Three stages laid end to end: ranks stay sorted, and a candidate of the
   * local or page stage exists only when that stage was switched on.
   */
  lemma StagesGated(wk: seq<Candidate>, local: seq<Candidate>, page: seq<Candidate>, localOn: bool, pageOn: bool)
    requires RanksWithin(wk, CandidateRank, 0, 0) && RanksWithin(local, CandidateRank, 1, 2) && RanksWithin(page, CandidateRank, 3, 3)
    requires !localOn ==> local == []
    requires !pageOn ==> page == []
    ensures forall i, j :: 0 <= i < j < |wk + local + page| ==>
      StageRank((wk + local + page)[i].stage) <= StageRank((wk + local + page)[j].stage)
    ensures (wk + local + page)[..|wk|] == wk
    ensures forall i :: 0 <= i < |wk + local + page| && 1 <= StageRank((wk + local + page)[i].stage) <= 2 ==> localOn
    ensures forall i :: 0 <= i < |wk + local + page| && StageRank((wk + local + page)[i].stage) == 3 ==> pageOn
  {
    ConcatRanks(wk, local, CandidateRank, 0, 0, 1, 2);
    ConcatRanks(wk + local, page, CandidateRank, 0, 2, 3, 3);
    assert (wk + local + page)[..|wk|] == wk;
  }

  /** The three runs of a concatenation can be read back by position. */
  lemma ThreeParts<T>(a: seq<T>, b: seq<T>, c: seq<T>)
    ensures (a + b + c)[..|a|] == a
    ensures (a + b + c)[|a|..|a| + |b|] == b
    ensures (a + b + c)[|a + b + c| - |c|..] == c
  {
  }

  /** The well-known paths all belong to the first stage. */
  lemma WellKnownRanks(origin: string)
    ensures RanksWithin(WellKnownCandidates(origin), CandidateRank, 0, 0)
  {
  }

  /** Every candidate in the order they are tried. */
  function Candidates(env: Env, url: string, u: Url): (cs: seq<Candidate>)
    requires env.parse(url) == Some(u)
    ensures |cs| >= 4 && cs[..4] == WellKnownCandidates(u.origin)
    ensures forall i, j :: 0 <= i < j < |cs| ==> StageRank(cs[i].stage) <= StageRank(cs[j].stage)
    ensures forall i :: 0 <= i < |cs| && 1 <= StageRank(cs[i].stage) <= 2 ==>
      IsUrlInLocalNetwork(env.parse, url) && env.localPage.Some?
    ensures forall i :: 0 <= i < |cs| && StageRank(cs[i].stage) == 3 ==> env.publicPage.Some?
  {
    var wk := WellKnownCandidates(u.origin);
    var localOn := IsUrlInLocalNetwork(env.parse, url) && env.localPage.Some?;
    var local := if localOn then LocalCandidates(env.localPage.value, u.origin, env.resolve) else [];
    var page :=
      if env.publicPage.Some? then PageCandidates(env.publicPage.value, u.origin, env.resolve)
      else [];
    WellKnownRanks(u.origin);
    var cs := wk + local + page;
    StagesGated(wk, local, page, localOn, env.publicPage.Some?);
    cs
  }

  /**
   * The stages as runs of the chain: the local stage follows the well-known
   * paths whenever it runs, and the page stage closes the chain for every URL
   * whose page was fetched, local or not.
   */
  lemma CandidatesLayout(env: Env, url: string, u: Url)
    requires env.parse(url) == Some(u)
    ensures IsUrlInLocalNetwork(env.parse, url) && env.localPage.Some? ==>
      var cs := Candidates(env, url, u);
      var local := LocalCandidates(env.localPage.value, u.origin, env.resolve);
      4 + |local| <= |cs| && cs[4..4 + |local|] == local
    ensures env.publicPage.Some? ==>
      var cs := Candidates(env, url, u);
      var page := PageCandidates(env.publicPage.value, u.origin, env.resolve);
      |page| <= |cs| && cs[|cs| - |page|..] == page
    ensures |Candidates(env, url, u)| == 4
      + (if IsUrlInLocalNetwork(env.parse, url) && env.localPage.Some? then |LocalCandidates(env.localPage.value, u.origin, env.resolve)| else 0)
      + (if env.publicPage.Some? then |PageCandidates(env.publicPage.value, u.origin, env.resolve)| else 0)
  {
    var wk := WellKnownCandidates(u.origin);
    var localOn := IsUrlInLocalNetwork(env.parse, url) && env.localPage.Some?;
    var local := if localOn then LocalCandidates(env.localPage.value, u.origin, env.resolve) else [];
    var page := if env.publicPage.Some? then PageCandidates(env.publicPage.value, u.origin, env.resolve) else [];
    assert Candidates(env, url, u) == wk + local + page;
    ThreeParts(wk, local, page);
  }

  /** The first candidate whose outcome is a non-empty data URL, and that outcome. */
  function FirstSuccess(cs: seq<Candidate>, load: Candidate -> Option<string>): (r: Option<string>)
    ensures r.None? <==> forall i :: 0 <= i < |cs| ==> !Truthy(load(cs[i]))
    ensures r.Some? ==> exists k :: (0 <= k < |cs| && r == load(cs[k]) && Truthy(r)
      && forall j :: 0 <= j < k ==> !Truthy(load(cs[j])))
    decreases |cs|
  {
    if |cs| == 0 then None
    else if Truthy(load(cs[0])) then load(cs[0])
    else
      var r := FirstSuccess(cs[1..], load);
      if r.Some? then
        var k :| 0 <= k < |cs| - 1 && r == load(cs[1..][k]) && Truthy(r)
          && forall j :: 0 <= j < k ==> !Truthy(load(cs[1..][j]));
        assert cs[k + 1] == cs[1..][k];
        r
      else r
  }

  /** Attempts stop at the first success: outcomes of later candidates never matter. */
  lemma {:induction false} LaterCandidatesNotTried(cs: seq<Candidate>, load: Candidate -> Option<string>, load': Candidate -> Option<string>, k: nat)
    requires k < |cs| && Truthy(load(cs[k]))
    requires forall j :: 0 <= j <= k ==> load(cs[j]) == load'(cs[j])
    ensures FirstSuccess(cs, load) == FirstSuccess(cs, load')
    decreases k
  {
    if k > 0 && !Truthy(load(cs[0])) {
      LaterCandidatesNotTried(cs[1..], load, load', k - 1);
    }
  }

  /** `(hostname[0] || "A").toUpperCase()`. */
  function BadgeLetter(hostname: string): (c: char)
    ensures |hostname| == 0 ==> c == 'A'
    ensures |hostname| > 0 ==> c == UpperChar(hostname[0])
  {
    if |hostname| > 0 then UpperChar(hostname[0]) else 'A'
  }

  /** `((code - 65) * 15) % 360`, a truncating remainder. */
  function BadgeHue(letter: char): (h: int)
    ensures -360 < h < 360
  {
    TruncRem((letter as int - 65) * 15, 360)
  }

  /** Letters give a hue in [0, 360). */
  lemma LetterHueInRange(c: char)
    requires 'A' <= c <= 'Z'
    ensures 0 <= BadgeHue(c) < 360
  {
  }

  /** A host starting with a digit gets a negative hue: the remainder keeps the sign. */
  lemma DigitHueNegative(c: char)
    requires IsDigit(c)
    ensures BadgeHue(c) == (c as int - 65) * 15 && BadgeHue(c) < 0
  {
  }

  /** What comes back: a loaded image's data URL, or the drawn badge. */
  datatype Icon = Loaded(dataUrl: string) | Badge(letter: char, hue: int)

  /**
   * `fetchIconOnClient`: null outside a browser or for a URL that does not
   * parse; otherwise the first candidate that loads, else the badge, else
   * null when no canvas context is available.
   */
  function FetchIconOnClient(env: Env, url: string): (r: Option<Icon>)
    ensures !env.inBrowser || env.parse(url).None? ==> r.None?
    ensures env.inBrowser && env.parse(url).Some? ==>
      var cs := Candidates(env, url, env.parse(url).value);
      match FirstSuccess(cs, env.load)
      case Some(d) => r == Some(Loaded(d))
      case None =>
        (forall i :: 0 <= i < |cs| ==> !Truthy(env.load(cs[i])))
        && (env.canvasOk ==> r == Some(Badge(BadgeLetter(env.parse(url).value.hostname), BadgeHue(BadgeLetter(env.parse(url).value.hostname)))))
        && (!env.canvasOk ==> r.None?)
  {
    if !env.inBrowser then None
    else match env.parse(url)
      case None => None
      case Some(u) =>
        match FirstSuccess(Candidates(env, url, u), env.load)
        case Some(d) => Some(Loaded(d))
        case None =>
          if env.canvasOk then
            var letter := BadgeLetter(u.hostname);
            Some(Badge(letter, BadgeHue(letter)))
          else None
  }

  /** When a well-known path loads, neither page is consulted. */
  lemma WellKnownWins(env: Env, url: string, k: nat, localPage: Option<Page>, publicPage: Option<Page>)
    requires env.inBrowser && env.parse(url).Some? && k < 4
    requires Truthy(env.load(WellKnownCandidates(env.parse(url).value.origin)[k]))
    ensures FetchIconOnClient(env, url) == FetchIconOnClient(env.(localPage := localPage, publicPage := publicPage), url)
  {
    var u := env.parse(url).value;
    var env' := env.(localPage := localPage, publicPage := publicPage);
    var cs := Candidates(env, url, u);
    var cs' := Candidates(env', url, u);
    WellKnownPrefix(cs, env.load, k);
    WellKnownPrefix(cs', env.load, k);
  }

  /** A success at `k` inside the first `n` candidates decides the result from those `n` alone. */
  lemma DecidedWithinPrefix(cs: seq<Candidate>, load: Candidate -> Option<string>, n: nat, k: nat)
    requires k < n <= |cs| && Truthy(load(cs[k]))
    ensures FirstSuccess(cs, load) == FirstSuccess(cs[..n], load)
  {
    assert cs[..n][k] == cs[k];
    FirstSuccessFound(cs[..n], load, k);
    FirstSuccessSplit(cs, load, n);
  }

  /** Splitting the candidates anywhere: the tail is tried only when the head has no success. */
  lemma FirstSuccessSplit(cs: seq<Candidate>, load: Candidate -> Option<string>, n: nat)
    requires n <= |cs|
    ensures FirstSuccess(cs, load) == if FirstSuccess(cs[..n], load).Some? then FirstSuccess(cs[..n], load) else FirstSuccess(cs[n..], load)
  {
    FirstSuccessConcat(cs[..n], cs[n..], load);
    assert cs[..n] + cs[n..] == cs;
  }

  /** A candidate that loads makes the attempts succeed. */
  lemma FirstSuccessFound(cs: seq<Candidate>, load: Candidate -> Option<string>, k: nat)
    requires k < |cs| && Truthy(load(cs[k]))
    ensures FirstSuccess(cs, load).Some?
  {
  }

  /** Attempts over two runs: the second run is tried only when the first has no success. */
  lemma {:induction false} FirstSuccessConcat(a: seq<Candidate>, b: seq<Candidate>, load: Candidate -> Option<string>)
    ensures FirstSuccess(a + b, load) == if FirstSuccess(a, load).Some? then FirstSuccess(a, load) else FirstSuccess(b, load)
    decreases |a|
  {
    if |a| == 0 {
      assert a + b == b;
    } else {
      FirstSuccessStep(a + b, load);
      FirstSuccessStep(a, load);
      assert (a + b)[0] == a[0];
      assert (a + b)[1..] == a[1..] + b;
      FirstSuccessConcat(a[1..], b, load);
    }
  }

  /** One step of the attempt loop: the first candidate, or the rest. */
  lemma FirstSuccessStep(cs: seq<Candidate>, load: Candidate -> Option<string>)
    requires |cs| > 0
    ensures FirstSuccess(cs, load) == if Truthy(load(cs[0])) then load(cs[0]) else FirstSuccess(cs[1..], load)
  {
  }

  lemma WellKnownPrefix(cs: seq<Candidate>, load: Candidate -> Option<string>, k: nat)
    requires k < 4 <= |cs| && Truthy(load(cs[k]))
    ensures FirstSuccess(cs, load) == FirstSuccess(cs[..4], load)
  {
    DecidedWithinPrefix(cs, load, 4, k);
  }

  // ---------------------------------------------------------------------------
  // Talking to the server

  /** A fetch of one of the routes: it threw, or it answered with `response.ok` and the body's `data?.icon`. */
  datatype ServerAnswer = Threw | Answered(ok: bool, icon: Option<string>)

  /** `data.data?.icon || null` of an ok answer; null otherwise. */
  function IconFromAnswer(a: ServerAnswer): (r: Option<string>)
    ensures r.Some? <==> a.Answered? && a.ok && Truthy(a.icon)
    ensures r.Some? ==> r == a.icon
  {
    if a.Answered? && a.ok && Truthy(a.icon) then a.icon else None
  }

  /** The query of `getIconFromServer`: `linkId` before `url`, each only when non-empty. */
  function IconQuery(linkId: Option<string>, url: Option<string>): (q: seq<(string, string)>)
    ensures |q| == (if Truthy(linkId) then 1 else 0) + (if Truthy(url) then 1 else 0)
    ensures Truthy(linkId) ==> q[0] == ("linkId", linkId.value)
    ensures Truthy(url) ==> q[|q| - 1] == ("url", url.value)
  {
    (if Truthy(linkId) then [("linkId", linkId.value)] else []) + (if Truthy(url) then [("url", url.value)] else [])
  }

  /** `searchParams.get(key)`: the first value under the key. */
  function Param(q: seq<(string, string)>, key: string): (v: Option<string>)
    ensures v.Some? ==> exists i :: 0 <= i < |q| && q[i] == (key, v.value)
    decreases |q|
  {
    if |q| == 0 then None
    else if q[0].0 == key then Some(q[0].1)
    else
      var v := Param(q[1..], key);
      if v.Some? then
        var i :| 0 <= i < |q| - 1 && q[1..][i] == (key, v.value);
        assert q[i + 1] == (key, v.value);
        v
      else v
  }

  /** What the icon route reads from the query. */
  function AsSeen(q: seq<(string, string)>): IconRoute.GetQuery {
    IconRoute.GetQuery(Param(q, "url"), Param(q, "linkId"))
  }

  /** The route's reply as the client sees it. */
  function Answer(h: Handled<Option<string>>): ServerAnswer {
    Answered(200 <= h.reply.status < 300, if h.reply.body.data.Some? then h.reply.body.data.value else None)
  }

  /** The route reads back exactly the parameters the client sent. */
  lemma QueryRoundTrip(linkId: Option<string>, url: Option<string>)
    ensures AsSeen(IconQuery(linkId, url)) == IconRoute.GetQuery(if Truthy(url) then url else None, if Truthy(linkId) then linkId else None)
  {
    ParamsOfQuery(linkId, url);
  }

  /**
   * `getIconFromServer` against the route: the route refuses only a request
   * with neither parameter, a failed lookup reaches the client as null, and
   * a link's stored icon comes back to the client.
   */
  lemma GetIconFromRoute(db: Db, linkId: Option<string>, url: Option<string>, parse: Parser, readOk: bool, writeOk: bool)
    ensures var h := IconRoute.Get(db, AsSeen(IconQuery(linkId, url)), parse, readOk, writeOk);
      h.reply.status == 400 <==> !Truthy(linkId) && !Truthy(url)
    ensures Truthy(linkId) && !readOk ==>
      IconFromAnswer(Answer(IconRoute.Get(db, AsSeen(IconQuery(linkId, url)), parse, readOk, writeOk))) == None
    ensures readOk && Truthy(linkId) && linkId.value in db.links && Truthy(db.links[linkId.value].icon) ==>
      IconFromAnswer(Answer(IconRoute.Get(db, AsSeen(IconQuery(linkId, url)), parse, readOk, writeOk))) == db.links[linkId.value].icon
  {
    QueryRoundTrip(linkId, url);
  }

  lemma ParamsOfQuery(linkId: Option<string>, url: Option<string>)
    ensures Param(IconQuery(linkId, url), "url") == (if Truthy(url) then url else None)
    ensures Param(IconQuery(linkId, url), "linkId") == (if Truthy(linkId) then linkId else None)
  {
    var q := IconQuery(linkId, url);
    assert "linkId" != "url" by { assert |"linkId"| != |"url"|; }
    if Truthy(linkId) && Truthy(url) {
      assert q[1..] == [("url", url.value)];
    }
  }

  /** The body of `saveIconToServer`: `url` dropped when undefined, `iconBase64` null when null. */
  function SaveIconBody(linkId: Id, iconBase64: Option<string>, url: Option<string>): IconRoute.PostBody {
    IconRoute.PostBody(Some(linkId), iconBase64, url)
  }

  /** An admin saving a `data:` icon for a stored link gets that very icon back when the write succeeds. */
  lemma SaveIconRoundTrip(db: Db, linkId: Id, iconBase64: string, url: Option<string>, parse: Parser)
    requires linkId != "" && linkId in db.links && IconRoute.IsDataUri(Some(iconBase64))
    ensures var h := IconRoute.Post(db, true, SaveIconBody(linkId, Some(iconBase64), url), parse, true, true);
      IconFromAnswer(Answer(h)) == Some(iconBase64) && h.db.links[linkId].icon == Some(iconBase64)
  {
  }

  /** `saveLocalIconToServer`: `response.ok`, and false when the fetch throws. */
  function SavedLocally(a: ServerAnswer): (ok: bool)
    ensures ok <==> a.Answered? && a.ok
  {
    a.Answered? && a.ok
  }

  /** The client reports success exactly when the local-icon route stored the icon. */
  lemma SaveLocalIconReport(db: Db, linkId: Id, iconBase64: string, parse: Parser, readOk: bool, writeOk: bool)
    ensures var h := LocalIconRoute.Post(db, LocalIconRoute.LocalIconBody(Some(linkId), Some(iconBase64)), parse, readOk, writeOk);
      && (SavedLocally(Answered(200 <= h.reply.status < 300, None)) <==> h.reply.status == 200)
      && (h.reply.status == 200 ==> h.db.links[linkId].icon == Some(iconBase64))
  {
  }
}
