/**
 * The product editor of the admin forms: the list of product items in the
 * page, the never-reused item index counter, the hidden JSON field the form
 * posts, the submit check and the preview configuration.
 */
module AdminForm {
  import opened Wrappers
  import opened Text
  import opened Records
  import opened Filtering
  import opened PopupEngine

  /**
   * One product item in the container: the `{{index}}` it was created with,
   * the number shown in its heading and the raw values of its four inputs.
   */
  datatype FormItem = FormItem(index: nat, number: nat, title: string, subtitle: string, url: string, image: string)

  /** The value of the hidden products input: the text the server rendered, or the serialisation of a product list. */
  datatype HiddenValue = Rendered(json: string) | Serialized(products: seq<Product>)

  /** The product read from an item: all four inputs trimmed. */
  function Trimmed(item: FormItem): (p: Product)
    ensures p == Product(JsTrim(item.title), JsTrim(item.subtitle), JsTrim(item.url), JsTrim(item.image))
  {
    Product(JsTrim(item.title), JsTrim(item.subtitle), JsTrim(item.url), JsTrim(item.image))
  }

  /** `product.title && product.url && product.image` after trimming. */
  predicate IsFilled(item: FormItem) {
    JsTrim(item.title) != "" && JsTrim(item.url) != "" && JsTrim(item.image) != ""
  }

  /** What getProducts() returns: the trimmed filled items, in DOM order. */
  function FilledProducts(items: seq<FormItem>): seq<Product> {
    FilterMap(items, IsFilled, Trimmed)
  }

  /** getProducts(): the `.each` loop pushing the filled items. */
  method GetProducts(items: seq<FormItem>) returns (products: seq<Product>)
    ensures products == FilledProducts(items)
  {
    products := [];
    var i := 0;
    while i < |items|
      invariant 0 <= i <= |items|
      invariant products == FilledProducts(items[..i])
    {
      assert items[..i + 1][..i] == items[..i];
      var item := items[i];
      var product := Product(JsTrim(item.title), JsTrim(item.subtitle), JsTrim(item.url), JsTrim(item.image));
      if product.title != "" && product.url != "" && product.image != "" {
        products := products + [product];
      }
      i := i + 1;
    }
    assert items[..i] == items;
  }

  /**
   * The products are the filled items, trimmed, in DOM order; each has a
   * non-empty title, url and image, and every filled item is represented.
   */
  lemma FilledProductsSpec(items: seq<FormItem>)
    ensures |FilledProducts(items)| == |Positions(items, IsFilled)| <= |items|
    ensures forall k :: 0 <= k < |FilledProducts(items)| ==>
      var i := Positions(items, IsFilled)[k];
      i < |items| && IsFilled(items[i]) && FilledProducts(items)[k] == Trimmed(items[i])
    ensures forall k :: 0 <= k < |FilledProducts(items)| ==>
      var p := FilledProducts(items)[k];
      p.title != "" && p.url != "" && p.image != ""
    ensures forall i :: 0 <= i < |items| && IsFilled(items[i]) ==> Trimmed(items[i]) in FilledProducts(items)
  {
    FilterMapAtPositions(items, IsFilled, Trimmed);
    FilterMapMembers(items, IsFilled, Trimmed);
  }

  /**
   * The submit handler: false stands for "prevent the submission". The loop's
   * required-field branch can never be taken, since every product it sees
   * already has the three fields.
   */
  method SubmitCheck(items: seq<FormItem>) returns (allowed: bool)
    ensures allowed <==> FilledProducts(items) != []
    ensures allowed <==> exists i :: 0 <= i < |items| && IsFilled(items[i])
  {
    FilterMapEmptyIff(items, IsFilled, Trimmed);
    var products := GetProducts(items);
    if |products| == 0 {
      return false;
    }
    FilledProductsSpec(items);
    for i := 0 to |products| {
      if products[i].title == "" || products[i].url == "" || products[i].image == "" {
        assert false;
      }
    }
    return true;
  }

  /** The number heading each item gets from updateProductNumbers: its position plus one. */
  function Renumbered(items: seq<FormItem>): (r: seq<FormItem>)
    ensures |r| == |items|
    ensures forall i :: 0 <= i < |items| ==> r[i] == items[i].(number := i + 1)
  {
    seq(|items|, i requires 0 <= i < |items| => items[i].(number := i + 1))
  }

  /** Item indices appear in creation order and are all below the counter. */
  ghost predicate IndicesFresh(items: seq<FormItem>, productIndex: nat) {
    && (forall i, j :: 0 <= i < j < |items| ==> items[i].index < items[j].index)
    && (forall i :: 0 <= i < |items| ==> items[i].index < productIndex)
  }

  /** Renumbering changes no product: the headings are not product fields. */
  lemma RenumberKeepsProducts(items: seq<FormItem>)
    ensures FilledProducts(Renumbered(items)) == FilledProducts(items)
  {
    var r := Renumbered(items);
    assert forall i :: 0 <= i < |items| ==> IsFilled(r[i]) == IsFilled(items[i]) && Trimmed(r[i]) == Trimmed(items[i]);
    FilterMapSameImage(r, items);
  }

  /** Two item lists that agree item by item on the product they yield yield the same products. */
  lemma {:induction false} FilterMapSameImage(a: seq<FormItem>, b: seq<FormItem>)
    requires |a| == |b|
    requires forall i :: 0 <= i < |a| ==> IsFilled(a[i]) == IsFilled(b[i]) && Trimmed(a[i]) == Trimmed(b[i])
    ensures FilledProducts(a) == FilledProducts(b)
  {
    if a != [] {
      var n := |a| - 1;
      FilterMapSameImage(a[..n], b[..n]);
    }
  }

  /** Renumbering keeps every item's index. */
  lemma RenumberKeepsIndices(items: seq<FormItem>, productIndex: nat)
    requires IndicesFresh(items, productIndex)
    ensures IndicesFresh(Renumbered(items), productIndex)
  {
  }

  /** An item added from an empty product contributes nothing to the products. */
  lemma BlankItemAddsNothing(items: seq<FormItem>, index: nat, number: nat)
    ensures FilledProducts(items + [FormItem(index, number, "", "", "", "")]) == FilledProducts(items)
  {
    var blank := FormItem(index, number, "", "", "", "");
    assert !IsFilled(blank);
    assert (items + [blank])[..|items|] == items;
  }

  /** The fields of an item the user can type into. */
  datatype Input = TitleInput | SubtitleInput | UrlInput | ImageInput

  function WithInput(item: FormItem, input: Input, value: string): (r: FormItem)
    ensures r.index == item.index && r.number == item.number
  {
    match input
    case TitleInput => item.(title := value)
    case SubtitleInput => item.(subtitle := value)
    case UrlInput => item.(url := value)
    case ImageInput => item.(image := value)
  }

  /** The product editor of one page. */
  class ProductForm {
    var items: seq<FormItem>
    var productIndex: nat
    var hidden: HiddenValue

    /** The counter hands out fresh indices; a serialised hidden field matches the items. */
    ghost predicate Valid()
      reads this
    {
      && IndicesFresh(items, productIndex)
      && (hidden.Serialized? ==> hidden.products == FilledProducts(items))
    }

    /**
     * Page load: one item per saved product, or a single blank one when
     * there are none; the hidden field keeps the text the server rendered.
     */
    constructor Load(json: string, saved: seq<Product>)
      ensures Valid()
      ensures hidden == Rendered(json)
      ensures |saved| > 0 ==> productIndex == |saved| && |items| == |saved|
      ensures |saved| > 0 ==> forall i :: 0 <= i < |saved| ==>
        items[i] == FormItem(i, i + 1, saved[i].title, saved[i].subtitle, saved[i].url, saved[i].image)
      ensures |saved| == 0 ==> productIndex == 1 && items == [FormItem(0, 1, "", "", "", "")]
    {
      items := [];
      productIndex := 0;
      hidden := Rendered(json);
      new;
      var k := 0;
      while k < |saved|
        invariant 0 <= k <= |saved|
        invariant Valid() && hidden == Rendered(json)
        invariant productIndex == k && |items| == k
        invariant forall i :: 0 <= i < k ==>
          items[i] == FormItem(i, i + 1, saved[i].title, saved[i].subtitle, saved[i].url, saved[i].image)
      {
        AddProduct(saved[k]);
        k := k + 1;
      }
      if |saved| == 0 {
        AddProduct(Product("", "", "", ""));
      }
    }

    /**
     * addProduct(product): a new item with the current counter as index and
     * counter + 1 as number, then the counter goes up by one. The hidden field
     * is not touched, so while it holds a serialisation only an empty item may
     * be added.
     */
    method AddProduct(p: Product)
      requires Valid()
      requires hidden.Serialized? ==> p == Product("", "", "", "")
      modifies this
      ensures Valid()
      ensures items == old(items) + [FormItem(old(productIndex), old(productIndex) + 1, p.title, p.subtitle, p.url, p.image)]
      ensures productIndex == old(productIndex) + 1
      ensures hidden == old(hidden)
      ensures forall i :: 0 <= i < |old(items)| ==> old(items)[i].index < items[|items| - 1].index
    {
      BlankItemAddsNothing(items, productIndex, productIndex + 1);
      items := items + [FormItem(productIndex, productIndex + 1, p.title, p.subtitle, p.url, p.image)];
      productIndex := productIndex + 1;
    }

    /** updateProductNumbers(): the i-th item is labelled i + 1. */
    method UpdateProductNumbers()
      requires IndicesFresh(items, productIndex)
      modifies this
      ensures IndicesFresh(items, productIndex)
      ensures items == Renumbered(old(items)) && FilledProducts(items) == FilledProducts(old(items))
      ensures productIndex == old(productIndex) && hidden == old(hidden)
    {
      var renumbered := items;
      var i := 0;
      while i < |renumbered|
        invariant 0 <= i <= |renumbered| == |items|
        invariant forall j :: 0 <= j < i ==> renumbered[j] == items[j].(number := j + 1)
        invariant forall j :: i <= j < |renumbered| ==> renumbered[j] == items[j]
      {
        renumbered := renumbered[i := renumbered[i].(number := i + 1)];
        i := i + 1;
      }
      RenumberKeepsProducts(items);
      RenumberKeepsIndices(items, productIndex);
      items := renumbered;
    }

    /** updateHiddenField(): the hidden input receives the serialised products. */
    method UpdateHiddenField()
      requires IndicesFresh(items, productIndex)
      modifies this
      ensures Valid()
      ensures hidden == Serialized(FilledProducts(items))
      ensures items == old(items) && productIndex == old(productIndex)
    {
      var products := GetProducts(items);
      hidden := Serialized(products);
    }

    /** The remove button of item k: the item goes, the others are renumbered, the hidden field refreshed. */
    method RemoveAt(k: nat)
      requires Valid() && k < |items|
      modifies this
      ensures Valid()
      ensures items == Renumbered(old(items)[..k] + old(items)[k + 1..])
      ensures productIndex == old(productIndex)
      ensures hidden == Serialized(FilledProducts(items))
    {
      var rest := items[..k] + items[k + 1..];
      assert forall i :: 0 <= i < |rest| ==> rest[i] == (if i < k then items[i] else items[i + 1]);
      items := rest;
      UpdateProductNumbers();
      UpdateHiddenField();
    }

    /** An input event on item k: the value changes and the hidden field is refreshed. */
    method EditField(k: nat, input: Input, value: string)
      requires Valid() && k < |items|
      modifies this
      ensures Valid()
      ensures items == old(items)[k := WithInput(old(items)[k], input, value)]
      ensures productIndex == old(productIndex)
      ensures hidden == Serialized(FilledProducts(items))
    {
      items := items[k := WithInput(items[k], input, value)];
      UpdateHiddenField();
    }
  }

  /** The width parseInt reads from the form, with NaN and 0 both falling back to 768. */
  function PreviewWidth(field: Option<string>): (w: int)
    ensures w != 0
    ensures field.None? || ParseInt(field.value).None? || ParseInt(field.value) == Some(0) ==> w == 768
    ensures field.Some? && ParseInt(field.value).Some? && ParseInt(field.value) != Some(0) ==> w == ParseInt(field.value).value
  {
    var parsed := if field.None? then None else ParseInt(field.value);
    if parsed.None? || parsed.value == 0 then 768 else parsed.value
  }

  /**
   * showPreview(): None when there is no product (the preview is aborted
   * before the global is set); otherwise the single configuration handed to
   * the front-end script. A form field the page lacks is None.
   */
  function PreviewConfig(items: seq<FormItem>, widthField: Option<string>, titleField: Option<string>, now: int): (c: Option<JsConfig>)
    ensures c.None? <==> FilledProducts(items) == []
    ensures c.Some? ==>
      && c.value.storageKey == "preview_" + IntToString(now)
      && c.value.products == Some(FilledProducts(items))
      && c.value.mobileMaxWidth == Some(PreviewWidth(widthField))
      && (titleField.None? || titleField.value == "" ==> c.value.title == "Product Selection")
      && (titleField.Some? && titleField.value != "" ==> c.value.title == titleField.value)
      && c.value.redisplayDays.None? && c.value.showOnDesktop.None?
  {
    var products := FilledProducts(items);
    if products == [] then None
    else
      var title := if titleField.None? || titleField.value == "" then "Product Selection" else titleField.value;
      Some(JsConfig("preview_" + IntToString(now), Some(PreviewWidth(widthField)), title, Some(products), None, None))
  }

  /**
   * The preview gets no special treatment: the front-end script sees a single
   * configuration and applies the usual gates, so on a viewport wider than 768
   * pixels nothing is shown; and the width field does not change that.
   */
  lemma PreviewKeepsGates(items: seq<FormItem>, widthField: Option<string>, titleField: Option<string>,
                          now: int, width: int, storage: map<string, string>, clock: int)
    requires PreviewConfig(items, widthField, titleField, now).Some?
    requires width > MobileMaxWidth
    ensures var c := PreviewConfig(items, widthField, titleField, now).value;
      && ConfigSource(Globals(None, Some(c))) == Some([c])
      && FirstQualifying([c], 0, width, storage, clock).None?
  {
    var c := PreviewConfig(items, widthField, titleField, now).value;
    DesktopDefaultIsNeutral(c, width, storage, clock);
    DeviceGate(WithDesktopDefault(c), width, storage, clock);
  }
}
