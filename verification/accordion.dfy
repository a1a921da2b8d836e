/** The FAQ accordion: a list of question headers of which at most one id is open, the
    open entry showing its answer and, when the record has one, a link to its source. */
module Accordion {
  import opened Wrappers
  import opened Catalog

  /** The open id starts as `null`, which `toggle` also uses for "nothing open". */
  const Closed: Id := NullId

  /** Clicking the header of the entry with id `id`. */
  function Toggle(openId: Id, id: Id): (next: Id)
    ensures next == Closed || next == id
    ensures next == Closed <==> (openId == id || id == Closed)
  {
    if openId == id then Closed else id
  }

  /** An entry is expanded exactly when its id equals the open id (both strictly equal). */
  predicate Expanded(openId: Id, f: Faq) {
    openId == f.id
  }

  const AccountIcon: string := "\U{1F464}"
  const PaymentsIcon: string := "\U{1F4B3}"
  const SecurityIcon: string := "\U{1F512}"
  const ApiIcon: string := "</>"
  const UnknownIcon: string := "\U{2753}"

  const KnownCategories: seq<string> := ["Account", "Payments", "Security", "API Integration"]
  const KnownIcons: seq<string> := [AccountIcon, PaymentsIcon, SecurityIcon, ApiIcon]

  /** The icon in front of a question, chosen by the record's category. */
  function Icon(category: string): (icon: string)
    ensures icon == UnknownIcon <==> category !in KnownCategories
    ensures forall i :: 0 <= i < |KnownCategories| && category == KnownCategories[i] ==> icon == KnownIcons[i]
  {
    if category == "Account" then AccountIcon
    else if category == "Payments" then PaymentsIcon
    else if category == "Security" then SecurityIcon
    else if category == "API Integration" then ApiIcon
    else UnknownIcon
  }

  /** The answer panel of an expanded entry: the answer verbatim and an optional link. */
  datatype Panel = Panel(answer: string, link: Option<string>)

  /** One rendered entry: icon, question, the open/closed marker and, when open, the panel. */
  datatype Entry = Entry(icon: string, question: string, marker: string, panel: Option<Panel>)

  const OpenMarker: string := "\U{25BE}"
  const ClosedMarker: string := "\U{203A}"

  function RenderEntry(openId: Id, f: Faq): Entry {
    if Expanded(openId, f) then
      Entry(Icon(f.category), f.question, OpenMarker,
            Some(Panel(f.answer, if IsTruthy(f.sourceUrl) then f.sourceUrl else None)))
    else
      Entry(Icon(f.category), f.question, ClosedMarker, None)
  }

  /** The accordion: one entry per record, in order. */
  function Render(openId: Id, items: seq<Faq>): (entries: seq<Entry>)
    ensures |entries| == |items|
    ensures forall i :: 0 <= i < |items| ==>
      && entries[i].question == items[i].question
      && entries[i].icon == Icon(items[i].category)
      && (entries[i].panel.Some? <==> items[i].id == openId)
      && (entries[i].marker == OpenMarker <==> items[i].id == openId)
      && (entries[i].panel.Some? ==> entries[i].panel.value.answer == items[i].answer)
      && (entries[i].panel.Some? ==>
            (entries[i].panel.value.link.Some? <==> IsTruthy(items[i].sourceUrl)))
      && (entries[i].panel.Some? && entries[i].panel.value.link.Some? ==>
            entries[i].panel.value.link == items[i].sourceUrl)
  {
    seq(|items|, i requires 0 <= i < |items| => RenderEntry(openId, items[i]))
  }

  // ---------------------------------------------------------------------------
  // properties
  // ---------------------------------------------------------------------------

  /** Toggling the same id twice returns to the start exactly when nothing or that id
      was open; from another open id it ends closed. */
  lemma ToggleTwice(openId: Id, id: Id)
    ensures Toggle(Toggle(openId, id), id) == openId <==> (openId == Closed || openId == id)
    ensures openId != Closed && openId != id ==> Toggle(Toggle(openId, id), id) == Closed
  {
  }

  /** From the closed state, toggling two different ids leaves exactly the second one
      open: every entry with that id is expanded and no other. */
  lemma ToggleSwitches(x: Id, y: Id, items: seq<Faq>)
    requires x != y
    ensures Toggle(Toggle(Closed, x), y) == y
    ensures forall i :: 0 <= i < |items| ==>
      (Render(Toggle(Toggle(Closed, x), y), items)[i].panel.Some? <==> items[i].id == y)
  {
  }

  /** With distinct ids, at most one entry is expanded. */
  lemma AtMostOneExpanded(openId: Id, items: seq<Faq>, i: int, j: int)
    requires forall a, b :: 0 <= a < b < |items| ==> items[a].id != items[b].id
    requires 0 <= i < |items| && 0 <= j < |items|
    requires Render(openId, items)[i].panel.Some?
    requires Render(openId, items)[j].panel.Some?
    ensures i == j
  {
  }

  /** An open id that matches no current record expands nothing, as after switching to
      a category that does not hold the open record. */
  lemma StaleOpenIdExpandsNothing(openId: Id, items: seq<Faq>)
    requires forall i :: 0 <= i < |items| ==> items[i].id != openId
    ensures forall i :: 0 <= i < |items| ==> Render(openId, items)[i].panel.None?
  {
  }

  /** Distinct known categories have distinct icons, none of them the fallback icon, so
      the icon determines a known category. */
  lemma IconDeterminesCategory(c1: string, c2: string)
    requires Icon(c1) == Icon(c2)
    requires Icon(c1) != UnknownIcon
    ensures c1 == c2
  {
    assert AccountIcon != PaymentsIcon && AccountIcon != SecurityIcon && AccountIcon != ApiIcon;
    assert PaymentsIcon != SecurityIcon && PaymentsIcon != ApiIcon && SecurityIcon != ApiIcon;
  }
}
