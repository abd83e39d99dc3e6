/**
 * The records the plugin passes around: products, stored popup records
 * (one entry of the `lps_popups` option) and the configuration objects the
 * front-end script reads.
 */
module Records {
  import opened Wrappers

  /** A product card: the four fields kept by every sanitiser. */
  datatype Product = Product(title: string, subtitle: string, url: string, image: string)

  /** A loosely typed PHP scalar, as older stored records may hold one. */
  datatype PhpScalar = PBool(b: bool) | PInt(i: int) | PStr(s: string)

  /** PHP's (bool) cast: false, 0, "" and "0" are false, everything else true. */
  function ToBool(v: PhpScalar): bool {
    match v
    case PBool(b) => b
    case PInt(i) => i != 0
    case PStr(s) => !(s == "" || s == "0")
  }

  /**
   * One stored popup record. `showOnDesktop` is None when the key is absent
   * (records saved before the field existed), `mobileMaxWidth` is None when the
   * record never had that key (the add-new defaults do not set it).
   */
  datatype Popup = Popup(
    id: string,
    name: string,
    enabled: bool,
    title: string,
    showOnDesktop: Option<PhpScalar>,
    redisplayDays: int,
    mobileMaxWidth: Option<int>,
    storageKey: string,
    pageRules: string,
    products: seq<Product>)

  /**
   * A popup configuration as the browser script sees it. An Option field is None
   * when the JavaScript property is undefined; `products` is None when it is
   * missing or not an array.
   */
  datatype JsConfig = JsConfig(
    storageKey: string,
    mobileMaxWidth: Option<int>,
    title: string,
    products: Option<seq<Product>>,
    redisplayDays: Option<int>,
    showOnDesktop: Option<bool>)
}
