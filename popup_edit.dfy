/**
 * The popup edit page before any markup: deciding between editing a stored
 * popup and adding a new one, the `show_on_desktop` back-compat cast, the
 * defaults of a new popup and the products JSON handed to the form.
 */
module PopupEdit {
  import opened Wrappers
  import opened Text
  import opened Records
  import opened PageRules
  import opened PopupList
  import opened FrontendFilter

  const DefaultTitle: string := "Which product are you interested in?"

  /** What the page works with once the record is loaded. */
  datatype EditPage = EditPage(isEdit: bool, popupId: string, popup: Popup, productsJson: string)

  /** The requested id after sanitize_key, or null when the query has none. */
  function RequestedId(requested: Option<string>): Option<string> {
    match requested
    case None => None
    case Some(raw) => Some(SanitizeKey(raw))
  }

  /** $popup_id && isset($popups[$popup_id]): a truthy id that the stored array holds. */
  predicate IsEdit(popups: map<string, Popup>, id: Option<string>) {
    id.Some? && !PhpFalsy(id.value) && id.value in popups
  }

  /** A stored record after the cast: a missing flag becomes false, a present one its PHP truth value. */
  function WithBoolDesktop(p: Popup): (q: Popup)
    ensures q.showOnDesktop.Some? && q.showOnDesktop.value.PBool?
    ensures q.showOnDesktop.value.b <==> p.showOnDesktop.Some? && ToBool(p.showOnDesktop.value)
    ensures q == p.(showOnDesktop := q.showOnDesktop)
  {
    if p.showOnDesktop.None? then p.(showOnDesktop := Some(PBool(false)))
    else p.(showOnDesktop := Some(PBool(ToBool(p.showOnDesktop.value))))
  }

  /** The record of a new popup created at Unix time `time`. */
  function NewPopup(time: int): (p: Popup)
    ensures p.id == NewId(time) && p.storageKey == p.id + "_shown"
    ensures p.name == "" && p.enabled && p.title == DefaultTitle
    ensures p.showOnDesktop == Some(PBool(false)) && p.redisplayDays == 0 && p.mobileMaxWidth.None?
    ensures p.pageRules == "" && p.products == []
  {
    var id := NewId(time);
    Popup(id, "", true, DefaultTitle, Some(PBool(false)), 0, None, StorageKeyFor(id), "", [])
  }

  /** $products_json: "[]" for an empty list, the encoder's text otherwise. */
  function ProductsJson(products: seq<Product>, encode: seq<Product> -> string): (json: string)
    ensures products == [] ==> json == "[]"
    ensures products != [] ==> json == encode(products)
  {
    if products == [] then "[]" else encode(products)
  }

  /** Lines 14-58: load the stored popup or build the defaults, then encode its products. */
  function LoadForEdit(popups: map<string, Popup>, requested: Option<string>, time: int,
                       encode: seq<Product> -> string): (page: EditPage)
    ensures page.isEdit <==> requested.Some? && !PhpFalsy(SanitizeKey(requested.value))
                                && SanitizeKey(requested.value) in popups
    ensures page.isEdit ==> page.popupId == SanitizeKey(requested.value)
                             && page.popup == WithBoolDesktop(popups[page.popupId])
    ensures !page.isEdit ==> page.popupId == NewId(time) && page.popup == NewPopup(time)
    ensures page.productsJson == ProductsJson(page.popup.products, encode)
  {
    var id := RequestedId(requested);
    if IsEdit(popups, id) then
      var popup := WithBoolDesktop(popups[id.value]);
      EditPage(true, id.value, popup, ProductsJson(popup.products, encode))
    else
      var popup := NewPopup(time);
      EditPage(false, NewId(time), popup, ProductsJson(popup.products, encode))
  }

  /** The "Show on Desktop" checkbox: checked when !empty($popup['show_on_desktop']). */
  predicate DesktopChecked(p: Popup) {
    p.showOnDesktop.Some? && ToBool(p.showOnDesktop.value)
  }

  /**
   * The cast changes nothing a reader of the record can see: the checkbox state
   * is that of the stored value, every other field is untouched, and casting
   * again is a no-op.
   */
  lemma CastKeepsMeaning(p: Popup)
    ensures DesktopChecked(WithBoolDesktop(p)) == DesktopChecked(p)
    ensures WithBoolDesktop(WithBoolDesktop(p)) == WithBoolDesktop(p)
  {
  }

  /** In edit mode the loaded record differs from the stored one in `show_on_desktop` at most. */
  lemma EditLoadsStoredRecord(popups: map<string, Popup>, raw: string, time: int, encode: seq<Product> -> string)
    requires !PhpFalsy(SanitizeKey(raw)) && SanitizeKey(raw) in popups
    ensures var page := LoadForEdit(popups, Some(raw), time, encode);
      && page.isEdit
      && page.popup.(showOnDesktop := popups[SanitizeKey(raw)].showOnDesktop) == popups[SanitizeKey(raw)]
      && DesktopChecked(page.popup) == DesktopChecked(popups[SanitizeKey(raw)])
  {
  }

  /** Without a popup_id, or with one the array lacks, the page adds a new popup. */
  lemma UnknownIdAddsNew(popups: map<string, Popup>, requested: Option<string>, time: int, encode: seq<Product> -> string)
    requires requested.None? || SanitizeKey(requested.value) !in popups
    ensures !LoadForEdit(popups, requested, time, encode).isEdit
    ensures LoadForEdit(popups, requested, time, encode).popup.products == []
    ensures LoadForEdit(popups, requested, time, encode).productsJson == "[]"
  {
  }

  /** New popups and duplicates made at the same second get the same id and the same storage key. */
  lemma StorageKeySchemeShared(q: Popup, time: int)
    ensures NewPopup(time).id == Copy(q, NewId(time)).id
    ensures NewPopup(time).storageKey == Copy(q, NewId(time)).storageKey
  {
  }

  /** A freshly defaulted popup is never sent to the browser: it has no products. */
  lemma NewPopupNeverEmitted(time: int, req: Request)
    ensures !Eligible(NewPopup(time), req)
  {
  }
}
