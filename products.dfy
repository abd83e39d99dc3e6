/**
 * The server-side product sanitisers: `sanitize_products` (the settings API
 * callback) and its twin in the settings-page save handler. Both decode the
 * posted JSON, keep in order only the items with title, url and image set,
 * and re-encode four cleaned fields per item. The WordPress sanitisers and the
 * JSON encoder are parameters the model does not interpret.
 */
module ProductSanitizer {
  import opened Wrappers
  import opened Text
  import opened Records
  import opened Filtering

  /**
   * One element of a decoded products array: an associative array holding its
   * set (non-null) fields, or any other value, on which `isset($item['title'])`
   * is false.
   */
  datatype RawItem = Fields(fields: map<string, string>) | Scalar

  /** What `json_decode($input, true)` produced: an array of elements, or anything else. */
  datatype Decoded = ArrayOf(items: seq<RawItem>) | NotArray

  /** `sanitize_text_field`, `esc_url_raw`, `sanitize_textarea_field` and `wp_json_encode`. */
  datatype Sanitizers = Sanitizers(
    text: string -> string,
    url: string -> string,
    textarea: string -> string,
    encode: seq<Product> -> string)

  /** The isset test both loops apply before keeping an item. */
  predicate IsComplete(item: RawItem) {
    item.Fields? && "title" in item.fields && "url" in item.fields && "image" in item.fields
  }

  /** `$item[$key]` for a set field, "" otherwise. */
  function Field(item: RawItem, key: string): string {
    if item.Fields? && key in item.fields then item.fields[key] else ""
  }

  /** The record appended for a kept item. */
  function Clean(item: RawItem, z: Sanitizers): Product {
    Product(
      z.text(Field(item, "title")),
      if item.Fields? && "subtitle" in item.fields then z.text(item.fields["subtitle"]) else "",
      z.url(Field(item, "url")),
      z.url(Field(item, "image")))
  }

  /** The list both loops build: the cleaned complete items, in input order. */
  function Kept(items: seq<RawItem>, z: Sanitizers): seq<Product> {
    FilterMap(items, IsComplete, item => Clean(item, z))
  }

  /** The foreach that appends a cleaned record for every complete item. */
  method SanitizeList(items: seq<RawItem>, z: Sanitizers) returns (sanitized: seq<Product>)
    ensures sanitized == Kept(items, z)
  {
    sanitized := [];
    var i := 0;
    while i < |items|
      invariant 0 <= i <= |items|
      invariant sanitized == Kept(items[..i], z)
    {
      assert items[..i + 1][..i] == items[..i];
      var item := items[i];
      if IsComplete(item) {
        sanitized := sanitized + [Clean(item, z)];
      }
      i := i + 1;
    }
    assert items[..i] == items;
  }

  /** `sanitize_products`: "[]" for anything that is not an array, else the encoding of the kept items. */
  method SanitizeProducts(input: Decoded, z: Sanitizers) returns (json: string)
    ensures input.NotArray? ==> json == "[]"
    ensures input.ArrayOf? ==> json == z.encode(Kept(input.items, z))
  {
    if !input.ArrayOf? {
      return "[]";
    }
    var sanitized := SanitizeList(input.items, z);
    json := z.encode(sanitized);
  }

  /**
   * What a kept list holds: exactly the complete items, in input order, each
   * cleaned, with an empty subtitle where the item had none; never more records
   * than there were items.
   */
  lemma KeptSpec(items: seq<RawItem>, z: Sanitizers)
    ensures |Kept(items, z)| <= |items|
    ensures |Kept(items, z)| == |Positions(items, IsComplete)|
    ensures forall k :: 0 <= k < |Kept(items, z)| ==>
      var item := items[Positions(items, IsComplete)[k]];
      && IsComplete(item)
      && Kept(items, z)[k].title == z.text(item.fields["title"])
      && Kept(items, z)[k].url == z.url(item.fields["url"])
      && Kept(items, z)[k].image == z.url(item.fields["image"])
      && Kept(items, z)[k].subtitle
         == (if "subtitle" in item.fields then z.text(item.fields["subtitle"]) else "")
  {
    FilterMapAtPositions(items, IsComplete, item => Clean(item, z));
  }

  /** An item is represented in the output exactly when it is complete. */
  lemma KeptMembers(items: seq<RawItem>, z: Sanitizers, p: Product)
    ensures p in Kept(items, z) <==> exists i :: 0 <= i < |items| && IsComplete(items[i]) && p == Clean(items[i], z)
  {
    FilterMapMembers(items, IsComplete, item => Clean(item, z));
  }

  /** An array without a single complete item is stored as the encoding of the empty list. */
  lemma NoCompleteItemKeepsNothing(items: seq<RawItem>, z: Sanitizers)
    ensures Kept(items, z) == [] <==> forall i :: 0 <= i < |items| ==> !IsComplete(items[i])
  {
    FilterMapEmptyIff(items, IsComplete, item => Clean(item, z));
  }

  /** PHP absint() on an integer: its absolute value. */
  function Absint(v: int): (r: nat)
    ensures v >= 0 ==> r == v
    ensures v < 0 ==> r == -v
  {
    if v < 0 then -v else v
  }

  /** The posted settings form; `products` is None when the field was not posted. */
  datatype SettingsForm = SettingsForm(
    enabledChecked: bool,
    mobileMaxWidth: int,
    title: string,
    storageKey: string,
    redisplayDays: int,
    pageRules: string,
    products: Option<Decoded>)

  /** The option values the save handler writes. */
  datatype Settings = Settings(
    enabled: bool,
    mobileMaxWidth: nat,
    title: string,
    storageKey: string,
    redisplayDays: nat,
    pageRules: string,
    products: string)

  /** json_decode('[]', true): the empty array. */
  function DecodedProducts(posted: Option<Decoded>): Decoded {
    match posted
    case None => ArrayOf([])
    case Some(d) => d
  }

  /** The settings-page save handler: every field sanitised, products through the same filter. */
  method SaveSettings(form: SettingsForm, z: Sanitizers) returns (s: Settings)
    ensures s.enabled == form.enabledChecked
    ensures s.mobileMaxWidth == Absint(form.mobileMaxWidth)
    ensures s.redisplayDays == Absint(form.redisplayDays)
    ensures s.title == z.text(form.title)
    ensures s.storageKey == SanitizeKey(form.storageKey)
    ensures s.pageRules == z.textarea(form.pageRules)
    ensures DecodedProducts(form.products).NotArray? ==> s.products == "[]"
    ensures DecodedProducts(form.products).ArrayOf? ==>
      s.products == z.encode(Kept(DecodedProducts(form.products).items, z))
    ensures form.products == None ==> s.products == z.encode([])
  {
    var decoded := DecodedProducts(form.products);
    var products: string;
    if decoded.ArrayOf? {
      var sanitized := SanitizeList(decoded.items, z);
      products := z.encode(sanitized);
    } else {
      products := "[]";
    }
    s := Settings(
      form.enabledChecked,
      Absint(form.mobileMaxWidth),
      z.text(form.title),
      SanitizeKey(form.storageKey),
      Absint(form.redisplayDays),
      z.textarea(form.pageRules),
      products);
  }
}
