/**
 * src/components/admin/LinkForm.tsx: the admin form's state transitions.
 * Each handler is a pure function from the old form state to the new one;
 * a render step is a handler followed by the effect React runs when one of
 * the effect's dependencies changed.
 */
module LinkForm {
  import opened Wrappers
  import opened Js
  import opened Urls
  import opened Records
  import opened Locality
  import LinksRoute

  datatype FormData = FormData(
    title: string,
    url: string,
    description: string,
    icon: string,
    isInternalOnly: bool,
    isPublic: bool,
    categoryId: string,
    tagIds: seq<Id>)

  /** The state before any effect has run. */
  const Initial := FormData("", "", "", "", false, true, "", [])

  datatype TextField = TitleInput | UrlInput | DescriptionInput | IconInput | CategorySelect
  datatype CheckField = InternalOnly | Public

  /** A change event: a text input or the select, or one of the two checkboxes. */
  datatype Change = Text(field: TextField, value: string) | Check(box: CheckField, checked: bool)

  function SetText(f: FormData, field: TextField, v: string): FormData {
    match field
    case TitleInput => f.(title := v)
    case UrlInput => f.(url := v)
    case DescriptionInput => f.(description := v)
    case IconInput => f.(icon := v)
    case CategorySelect => f.(categoryId := v)
  }

  function SetCheck(f: FormData, box: CheckField, b: bool): FormData {
    match box
    case InternalOnly => f.(isInternalOnly := b)
    case Public => f.(isPublic := b)
  }

  /**
   * `handleChange`: store the field; a non-empty URL also recomputes
   * `isInternalOnly`, and no other field moves.
   */
  function HandleChange(parse: Parser, f: FormData, ch: Change): (r: FormData)
    ensures r.tagIds == f.tagIds
    ensures ch.Text? ==> SetText(r, ch.field, ch.value) == r
    ensures ch.Check? ==> SetCheck(r, ch.box, ch.checked) == r
    ensures ch.Text? && ch.field == UrlInput && ch.value != "" ==> r.isInternalOnly == IsInternalUrl(parse, ch.value)
    ensures !(ch.Text? && ch.field == UrlInput && ch.value != "") ==>
      (ch.Text? ==> r == SetText(f, ch.field, ch.value)) && (ch.Check? ==> r == SetCheck(f, ch.box, ch.checked))
    ensures ch.Text? && ch.field == UrlInput && ch.value != "" ==>
      r == f.(url := ch.value, isInternalOnly := IsInternalUrl(parse, ch.value))
  {
    match ch
    case Check(box, checked) => SetCheck(f, box, checked)
    case Text(field, v) =>
      var stored := SetText(f, field, v);
      if field == UrlInput && v != "" then stored.(isInternalOnly := IsInternalUrl(parse, v)) else stored
  }

  /** The position of the first `x` in `s`, or -1. */
  function IndexOf(s: seq<Id>, x: Id): (i: int)
    ensures -1 <= i < |s|
    ensures i == -1 <==> x !in s
    ensures i >= 0 ==> s[i] == x && x !in s[..i]
    decreases |s|
  {
    if |s| == 0 then -1
    else if s[0] == x then 0
    else
      var j := IndexOf(s[1..], x);
      assert s[1..][..if j < 0 then 0 else j] == s[1..if j < 0 then 1 else j + 1];
      if j < 0 then -1 else j + 1
  }

  ghost predicate NoDuplicates(s: seq<Id>) {
    forall i, j :: 0 <= i < j < |s| ==> s[i] != s[j]
  }

  /**
   * `handleTagChange`: append an absent id at the end; otherwise cut out its
   * first occurrence and keep everything else in order.
   */
  function ToggleTag(ids: seq<Id>, id: Id): (r: seq<Id>)
    ensures id !in ids ==> r == ids + [id]
    ensures id in ids ==> exists i :: 0 <= i <= |r| && i <= |ids| && id !in ids[..i] && ids == r[..i] + [id] + r[i..]
    ensures id !in ids ==> multiset(r) == multiset(ids) + multiset{id}
    ensures id in ids ==> multiset(r) == multiset(ids) - multiset{id}
    ensures forall x :: x != id ==> (x in r <==> x in ids)
    ensures NoDuplicates(ids) ==> NoDuplicates(r) && (id in r <==> id !in ids)
  {
    var i := IndexOf(ids, id);
    if i < 0 then
      assert NoDuplicates(ids) ==> NoDuplicates(ids + [id]);
      ids + [id]
    else
      CutAt(ids, i);
      ids[..i] + ids[i + 1..]
  }

  /** Cutting one element out of a list. */
  lemma CutAt(ids: seq<Id>, i: nat)
    requires i < |ids|
    ensures var r := ids[..i] + ids[i + 1..];
      && ids == r[..i] + [ids[i]] + r[i..]
      && multiset(r) == multiset(ids) - multiset{ids[i]}
      && (forall x :: x != ids[i] ==> (x in r <==> x in ids))
      && (NoDuplicates(ids) ==> NoDuplicates(r) && ids[i] !in r)
  {
    var r := ids[..i] + ids[i + 1..];
    assert r[..i] == ids[..i] && r[i..] == ids[i + 1..];
    assert ids == ids[..i] + [ids[i]] + ids[i + 1..];
    assert multiset(ids) == multiset(ids[..i]) + multiset{ids[i]} + multiset(ids[i + 1..]);
    if NoDuplicates(ids) {
      CutKeepsNoDuplicates(ids, i);
    }
  }

  lemma CutKeepsNoDuplicates(ids: seq<Id>, i: nat)
    requires i < |ids| && NoDuplicates(ids)
    ensures NoDuplicates(ids[..i] + ids[i + 1..]) && ids[i] !in ids[..i] + ids[i + 1..]
  {
    var r := ids[..i] + ids[i + 1..];
    assert forall k :: 0 <= k < |r| ==> r[k] == ids[if k < i then k else k + 1];
  }

  /** Toggling an absent id twice gives back the list it started from. */
  lemma ToggleTwiceRestores(ids: seq<Id>, id: Id)
    requires id !in ids
    ensures ToggleTag(ToggleTag(ids, id), id) == ids
  {
    var once := ids + [id];
    assert IndexOf(once, id) == |ids| by {
      assert once[|ids|] == id && once[..|ids|] == ids;
    }
  }

  /** Toggling a present id twice keeps the same tags, only moved to the end. */
  lemma ToggleTwiceSameTags(ids: seq<Id>, id: Id)
    requires id in ids && NoDuplicates(ids)
    ensures var twice := ToggleTag(ToggleTag(ids, id), id);
      (forall x :: x in twice <==> x in ids) && NoDuplicates(twice) && |twice| == |ids|
  {
    var twice := ToggleTag(ToggleTag(ids, id), id);
    assert multiset(twice) == multiset(ids);
    assert |twice| == |multiset(twice)|;
  }

  function HandleTagChange(f: FormData, tagId: Id): (r: FormData)
    ensures r == f.(tagIds := ToggleTag(f.tagIds, tagId))
    ensures (tagId in r.tagIds <==> tagId !in f.tagIds) || !NoDuplicates(f.tagIds)
  {
    f.(tagIds := ToggleTag(f.tagIds, tagId))
  }

  /**
   * The new-link effect, run when `formData.url` changed: an internal URL
   * forces `isInternalOnly` on; it never switches it off.
   */
  function NewModeEffect(parse: Parser, f: FormData): (r: FormData)
    ensures f.url != "" && IsInternalUrl(parse, f.url) ==> r.isInternalOnly
    ensures f.isInternalOnly ==> r.isInternalOnly
    ensures r == f.(isInternalOnly := r.isInternalOnly)
    ensures !(f.url != "" && IsInternalUrl(parse, f.url)) ==> r == f
  {
    if f.url != "" && IsInternalUrl(parse, f.url) then f.(isInternalOnly := true) else f
  }

  /** One event in new-link mode: the handler, then the effect when the URL moved. */
  function NewModeStep(parse: Parser, f: FormData, ev: Event): (r: FormData)
    ensures ev.Edit? && ev.change.Text? && ev.change.field == UrlInput && ev.change.value != "" ==>
      r.url == ev.change.value && r.isInternalOnly == IsInternalUrl(parse, ev.change.value)
  {
    var next := Handle(parse, f, ev);
    if next.url != f.url then NewModeEffect(parse, next) else next
  }

  datatype Event = Edit(change: Change) | ToggleTagEvent(tagId: Id)

  function Handle(parse: Parser, f: FormData, ev: Event): FormData {
    match ev
    case Edit(ch) => HandleChange(parse, f, ch)
    case ToggleTagEvent(id) => HandleTagChange(f, id)
  }

  /** The new-link form after a series of events. */
  function NewModeRun(parse: Parser, evs: seq<Event>): FormData
    decreases |evs|
  {
    if |evs| == 0 then Initial
    else NewModeStep(parse, NewModeRun(parse, evs[..|evs| - 1]), evs[|evs| - 1])
  }

  /** However the admin clicks, the selected tag ids never hold a duplicate. */
  lemma {:induction false} NewModeRunNoDuplicates(parse: Parser, evs: seq<Event>)
    ensures NoDuplicates(NewModeRun(parse, evs).tagIds)
    decreases |evs|
  {
    if |evs| > 0 {
      NewModeRunNoDuplicates(parse, evs[..|evs| - 1]);
    }
  }

  /** The null-to-"" mapping of the edit initialisation. */
  function OrEmpty(o: Option<string>): (s: string)
    ensures o.Some? ==> s == o.value
    ensures o.None? ==> s == ""
  {
    OrElse(o, "")
  }

  function TagIds(tags: seq<Tag>): (ids: seq<Id>)
    ensures |ids| == |tags|
    ensures forall i :: 0 <= i < |tags| ==> ids[i] == tags[i].id
  {
    seq(|tags|, i requires 0 <= i < |tags| => tags[i].id)
  }

  /** The edit initialisation: the link's fields, a null text field as "", and its tag ids in order. */
  function EditInit(link: Link): FormData {
    FormData(
      link.title, link.url, OrEmpty(link.description), OrEmpty(link.icon),
      link.isInternalOnly, link.isPublic, OrEmpty(link.categoryId), TagIds(link.tags))
  }

  /**
   * One event in edit mode AS WRITTEN: the effect that loads the stored link
   * lists `formData.url` among its dependencies, so it runs again after every
   * URL change and overwrites the whole form with the stored link.
   */
  function EditModeStepAsWritten(parse: Parser, link: Link, f: FormData, ev: Event): FormData {
    var next := Handle(parse, f, ev);
    if next.url != f.url then EditInit(link) else next
  }

  /** As written, typing a different URL into the edit form is undone, and unsaved edits go with it. */
  lemma EditUrlChangeIsReverted(parse: Parser, link: Link, f: FormData, v: string)
    requires v != f.url
    ensures EditModeStepAsWritten(parse, link, f, Edit(Text(UrlInput, v))) == EditInit(link)
    ensures EditModeStepAsWritten(parse, link, f, Edit(Text(UrlInput, v))).url != v || v == link.url
  {
  }

  /** A concrete case: after loading a link with URL "a", typing "b" leaves the field at "a". */
  lemma EditUrlCounterexample(parse: Parser, link: Link)
    requires link.url == "a"
    ensures EditModeStepAsWritten(parse, link, EditInit(link), Edit(Text(UrlInput, "b"))).url == "a"
  {
  }

  /**
   * One event in edit mode as intended: the stored link is loaded once, so an
   * event is just its handler.
   */
  function EditModeStep(parse: Parser, f: FormData, ev: Event): (r: FormData)
    ensures ev.Edit? && ev.change.Text? ==> SetText(r, ev.change.field, ev.change.value) == r
    ensures ev.Edit? ==> r.tagIds == f.tagIds
    ensures ev.ToggleTagEvent? ==> r == f.(tagIds := r.tagIds)
  {
    Handle(parse, f, ev)
  }

  /** As intended, the URL typed into the edit form is kept and every other text field stays as it was. */
  lemma EditUrlChangeKept(parse: Parser, f: FormData, v: string)
    ensures var r := EditModeStep(parse, f, Edit(Text(UrlInput, v)));
      r.url == v && r.title == f.title && r.description == f.description && r.icon == f.icon
      && r.categoryId == f.categoryId && r.isPublic == f.isPublic && r.tagIds == f.tagIds
  {
  }

  /** `formData.x || null`: an empty text becomes `null`. */
  function OrNull(s: string): (o: Option<string>)
    ensures o.None? <==> s == ""
    ensures o.Some? ==> o.value == s
  {
    if s == "" then None else Some(s)
  }

  datatype Payload = Payload(
    title: string,
    url: string,
    description: Option<string>,
    icon: Option<string>,
    isInternalOnly: bool,
    isPublic: bool,
    categoryId: Option<Id>,
    tagIds: seq<Id>)

  /** The JSON body sent on submit: the form with empty description, icon and category as null. */
  function SubmitPayload(f: FormData): (p: Payload)
    ensures p.title == f.title && p.url == f.url && p.tagIds == f.tagIds
    ensures p.isInternalOnly == f.isInternalOnly && p.isPublic == f.isPublic
    ensures Truthy(p.description) <==> f.description != ""
    ensures Truthy(p.icon) <==> f.icon != ""
    ensures Truthy(p.categoryId) <==> f.categoryId != ""
    ensures OrEmpty(p.description) == f.description && OrEmpty(p.icon) == f.icon && OrEmpty(p.categoryId) == f.categoryId
  {
    Payload(f.title, f.url, OrNull(f.description), OrNull(f.icon), f.isInternalOnly, f.isPublic, OrNull(f.categoryId), f.tagIds)
  }

  /** No stored text field is the empty string (an empty value would come back as null). */
  predicate NoEmptyTexts(link: Link) {
    link.description != Some("") && link.icon != Some("") && link.categoryId != Some("")
  }

  /** Saving an unchanged edit form sends back exactly what the stored link holds. */
  lemma EditInitRoundTrip(link: Link)
    requires NoEmptyTexts(link)
    ensures var p := SubmitPayload(EditInit(link));
      && p.title == link.title && p.url == link.url
      && p.description == link.description && p.icon == link.icon && p.categoryId == link.categoryId
      && p.isInternalOnly == link.isInternalOnly && p.isPublic == link.isPublic
      && p.tagIds == TagIds(link.tags)
  {
  }

  datatype HttpMethod = Post | Put

  datatype Submission = Submission(verb: HttpMethod, endpoint: string, payload: Payload)

  /**
   * `handleSubmit`: nothing while a submission is in flight; otherwise PUT to
   * `/api/links/{id}` when editing (a missing link interpolates as
   * "undefined") and POST to `/api/links` when creating.
   */
  function Submit(f: FormData, isSubmitting: bool, isEditing: bool, linkId: Option<Id>): (s: Option<Submission>)
    ensures isSubmitting <==> s.None?
    ensures s.Some? ==> s.value.payload == SubmitPayload(f)
    ensures s.Some? && !isEditing ==> s.value.verb == Post && s.value.endpoint == "/api/links"
    ensures s.Some? && isEditing ==>
      s.value.verb == Put && s.value.endpoint == "/api/links/" + (if linkId.Some? then linkId.value else "undefined")
  {
    if isSubmitting then None
    else if isEditing then Some(Submission(Put, "/api/links/" + (if linkId.Some? then linkId.value else "undefined"), SubmitPayload(f)))
    else Some(Submission(Post, "/api/links", SubmitPayload(f)))
  }

  /** The request body the links route receives from a submitted new-link form. */
  function AsLinkBody(p: Payload): LinksRoute.LinkBody {
    LinksRoute.LinkBody(
      Some(p.title), Some(p.url), p.description, p.icon,
      Bool(p.isInternalOnly), Bool(p.isPublic), p.categoryId, Some(p.tagIds))
  }

  /**
   * A new-link form submitted by an admin passes the route's required-field
   * check exactly when its title and URL are filled in, and a created link
   * keeps both checkboxes' values.
   */
  lemma SubmittedFormAccepted(db: Db, f: FormData, newId: Id)
    ensures var h := LinksRoute.Post(db, true, AsLinkBody(SubmitPayload(f)), newId);
      (h.reply.status == 400 <==> f.title == "" || f.url == "")
    ensures var h := LinksRoute.Post(db, true, AsLinkBody(SubmitPayload(f)), newId);
      h.reply.status == 201 ==> h.db.links[newId].isPublic == f.isPublic && h.db.links[newId].isInternalOnly == f.isInternalOnly
  {
  }
}
