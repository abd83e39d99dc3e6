/**
 * The front-end script's choice of popup: where the configurations come from,
 * the first-match selection loop (which defaults `showOnDesktop` in place),
 * the device and frequency gates of `shouldShowPopup`, and the product grid.
 * The viewport width, the clock and localStorage are inputs.
 */
module PopupEngine {
  import opened Wrappers
  import opened Text
  import opened Records

  /** The viewport width above which a popup without `showOnDesktop` stays hidden. */
  const MobileMaxWidth: int := 768

  /** Milliseconds in a day: 1000 * 60 * 60 * 24. */
  const DayMs: int := 86400000

  /** localStorage.getItem(key), with null and "" both read as "" (both are falsy). */
  function Stored(storage: map<string, string>, key: string): string {
    if key in storage then storage[key] else ""
  }

  // ---------------------------------------------------------------- configuration source

  /**
   * `window.URN_POPUP_CONFIGS` (None unless it is an array) and
   * `window.URN_POPUP_CONFIG` (None when it is undefined or null).
   */
  datatype Globals = Globals(configs: Option<seq<JsConfig>>, config: Option<JsConfig>)

  /**
   * The candidate list: the array when there is one, else the single
   * configuration as a one-element list; None when there is neither, and the
   * script stops.
   */
  function ConfigSource(g: Globals): (r: Option<seq<JsConfig>>)
    ensures g.configs.Some? ==> r == g.configs
    ensures g.configs.None? && g.config.Some? ==> r == Some([g.config.value])
    ensures r.None? <==> g.configs.None? && g.config.None?
  {
    if g.configs.Some? then g.configs
    else if g.config.Some? then Some([g.config.value])
    else None
  }

  // ---------------------------------------------------------------- gates

  /** The in-place back-compat default: an undefined `showOnDesktop` becomes false. */
  function WithDesktopDefault(c: JsConfig): (d: JsConfig)
    ensures c.showOnDesktop.None? ==> d.showOnDesktop == Some(false)
    ensures c.showOnDesktop.Some? ==> d == c
    ensures d == c.(showOnDesktop := d.showOnDesktop)
  {
    if c.showOnDesktop.None? then c.(showOnDesktop := Some(false)) else c
  }

  /** `config.products` is an array with at least one element. */
  predicate HasProducts(c: JsConfig) {
    c.products.Some? && |c.products.value| > 0
  }

  /** `config.showOnDesktop` is truthy. */
  predicate ShowsOnDesktop(c: JsConfig) {
    c.showOnDesktop == Some(true)
  }

  /** `!config.redisplayDays || config.redisplayDays === 0`: the show-once setting. */
  predicate ShowOnce(c: JsConfig) {
    c.redisplayDays.None? || c.redisplayDays.value == 0
  }

  /**
   * shouldShowPopup(config): the device gate, then the frequency gate. A stored
   * value that parseInt cannot read gives NaN, and `NaN < days` is false, so
   * it passes. The day comparison is done on whole milliseconds.
   */
  predicate ShouldShowPopup(c: JsConfig, width: int, storage: map<string, string>, now: int) {
    if !ShowsOnDesktop(c) && width > MobileMaxWidth then false
    else
      var lastShown := Stored(storage, c.storageKey);
      if lastShown != "" then
        if ShowOnce(c) then false
        else
          match ParseInt(lastShown)
          case None => true
          case Some(t) => !(now - t < c.redisplayDays.value * DayMs)
      else true
  }

  /** The device gate on its own. */
  predicate DeviceAllows(c: JsConfig, width: int) {
    ShowsOnDesktop(c) || width <= MobileMaxWidth
  }

  /** The frequency gate on its own, written as the condition under which it lets the popup through. */
  predicate FrequencyAllows(c: JsConfig, storage: map<string, string>, now: int) {
    var lastShown := Stored(storage, c.storageKey);
    || lastShown == ""
    || (!ShowOnce(c) && (ParseInt(lastShown).None? ||
                          now - ParseInt(lastShown).value >= c.redisplayDays.value * DayMs))
  }

  /** shouldShowPopup is exactly the conjunction of the two gates. */
  lemma ShouldShowIffGates(c: JsConfig, width: int, storage: map<string, string>, now: int)
    ensures ShouldShowPopup(c, width, storage, now) <==> DeviceAllows(c, width) && FrequencyAllows(c, storage, now)
  {
  }

  /**
   * The script divides the elapsed milliseconds by the length of a day and
   * compares with the day count; on exact arithmetic that is the integer
   * comparison the model makes.
   */
  lemma DaysComparison(elapsed: int, days: int)
    ensures (elapsed as real) / (DayMs as real) < days as real <==> elapsed < days * DayMs
  {
    var d := DayMs as real;
    var q := (elapsed as real) / d;
    assert q * d == elapsed as real;
    assert (days * DayMs) as real == (days as real) * d;
    if q < days as real {
      assert q * d < (days as real) * d;
    }
    if elapsed < days * DayMs {
      assert q * d < (days as real) * d;
    }
  }

  /** Without `showOnDesktop`, a viewport wider than 768 pixels never shows a popup; 768 itself passes. */
  lemma DeviceGate(c: JsConfig, width: int, storage: map<string, string>, now: int)
    requires !ShowsOnDesktop(c)
    ensures width > MobileMaxWidth ==> !ShouldShowPopup(c, width, storage, now)
    ensures width <= MobileMaxWidth ==>
      ShouldShowPopup(c, width, storage, now) == FrequencyAllows(c, storage, now)
  {
    ShouldShowIffGates(c, width, storage, now);
  }

  /** Show-once: any non-empty stored value blocks a config whose redisplayDays is 0 or missing. */
  lemma ShownOnceNeverAgain(c: JsConfig, width: int, storage: map<string, string>, now: int)
    requires ShowOnce(c) && Stored(storage, c.storageKey) != ""
    ensures !ShouldShowPopup(c, width, storage, now)
  {
  }

  /** Nothing stored under the key: only the device gate applies. */
  lemma NothingStoredPasses(c: JsConfig, width: int, storage: map<string, string>, now: int)
    requires Stored(storage, c.storageKey) == ""
    ensures ShouldShowPopup(c, width, storage, now) <==> DeviceAllows(c, width)
  {
  }

  /**
   * Re-display: with N days configured and the timestamp T that markAsShown
   * wrote, the popup shows again exactly when N days' worth of milliseconds
   * have passed.
   */
  lemma RedisplayAfterDays(c: JsConfig, width: int, storage: map<string, string>, now: int, t: int)
    requires !ShowOnce(c)
    requires c.storageKey in storage && storage[c.storageKey] == IntToString(t)
    ensures ShouldShowPopup(c, width, storage, now)
        <==> DeviceAllows(c, width) && now - t >= c.redisplayDays.value * DayMs
  {
    ParseIntOfIntToString(t);
  }

  /** A stored value parseInt cannot read (NaN) never blocks a config that re-displays. */
  lemma UnreadableTimestampPasses(c: JsConfig, width: int, storage: map<string, string>, now: int)
    requires !ShowOnce(c)
    requires ParseInt(Stored(storage, c.storageKey)) == None
    ensures ShouldShowPopup(c, width, storage, now) <==> DeviceAllows(c, width)
  {
  }

  /** Defaulting `showOnDesktop` to false does not change any gate. */
  lemma DesktopDefaultIsNeutral(c: JsConfig, width: int, storage: map<string, string>, now: int)
    ensures HasProducts(WithDesktopDefault(c)) == HasProducts(c)
    ensures ShouldShowPopup(WithDesktopDefault(c), width, storage, now) == ShouldShowPopup(c, width, storage, now)
  {
  }

  // ---------------------------------------------------------------- selection

  /** A config the loop stops at: it has products and passes shouldShowPopup (after the default). */
  predicate Qualifies(c: JsConfig, width: int, storage: map<string, string>, now: int) {
    var d := WithDesktopDefault(c);
    HasProducts(d) && ShouldShowPopup(d, width, storage, now)
  }

  /** The index of the first qualifying config at or after `from`. */
  function FirstQualifying(cs: seq<JsConfig>, from: nat, width: int, storage: map<string, string>, now: int): (r: Option<nat>)
    requires from <= |cs|
    ensures r.Some? ==> from <= r.value < |cs| && Qualifies(cs[r.value], width, storage, now)
    ensures r.Some? ==> forall j :: from <= j < r.value ==> !Qualifies(cs[j], width, storage, now)
    ensures r.None? ==> forall j :: from <= j < |cs| ==> !Qualifies(cs[j], width, storage, now)
    decreases |cs| - from
  {
    if from == |cs| then None
    else if Qualifies(cs[from], width, storage, now) then Some(from)
    else FirstQualifying(cs, from + 1, width, storage, now)
  }

  /** The configs with the back-compat default applied. */
  function Defaulted(cs: seq<JsConfig>): (r: seq<JsConfig>)
    ensures |r| == |cs| && forall i :: 0 <= i < |cs| ==> r[i] == WithDesktopDefault(cs[i])
  {
    seq(|cs|, i requires 0 <= i < |cs| => WithDesktopDefault(cs[i]))
  }

  /**
   * The selection loop over the CONFIGS array. It defaults `showOnDesktop` in
   * place on every config it looks at, skips configs without products and
   * stops at the first that passes shouldShowPopup; configs after it are
   * neither examined nor touched.
   */
  method SelectConfig(a: array<JsConfig>, width: int, storage: map<string, string>, now: int)
    returns (selected: Option<JsConfig>)
    modifies a
    ensures var first := FirstQualifying(old(a[..]), 0, width, storage, now);
      && (first.None? ==> selected == None && a[..] == Defaulted(old(a[..])))
      && (first.Some? ==>
            && selected == Some(WithDesktopDefault(old(a[first.value])))
            && a[..] == Defaulted(old(a[..first.value + 1])) + old(a[first.value + 1..]))
  {
    ghost var original := a[..];
    selected := None;
    var i := 0;
    while i < a.Length
      invariant 0 <= i <= a.Length
      invariant a[..i] == Defaulted(original[..i]) && a[i..] == original[i..]
      invariant FirstQualifying(original, 0, width, storage, now) == FirstQualifying(original, i, width, storage, now)
    {
      assert a[i] == original[i];
      if a[i].showOnDesktop.None? {
        a[i] := a[i].(showOnDesktop := Some(false));
      }
      assert a[..i + 1] == Defaulted(original[..i + 1]);
      assert a[i + 1..] == original[i + 1..];
      var config := a[i];
      if HasProducts(config) && ShouldShowPopup(config, width, storage, now) {
        selected := Some(config);
        assert a[..] == a[..i + 1] + a[i + 1..];
        return;
      }
      i := i + 1;
    }
    assert a[..] == a[..i];
    assert original[..i] == original;
  }

  /** Among two configs that both qualify, the one listed first wins. */
  lemma EarlierWins(cs: seq<JsConfig>, i: nat, j: nat, width: int, storage: map<string, string>, now: int)
    requires i < j < |cs|
    requires Qualifies(cs[i], width, storage, now) && Qualifies(cs[j], width, storage, now)
    ensures FirstQualifying(cs, 0, width, storage, now).Some?
    ensures FirstQualifying(cs, 0, width, storage, now).value <= i
  {
  }

  // ---------------------------------------------------------------- rendering

  /** The grid template: a fixed number of equal tracks, or the auto-fit layout. */
  datatype Grid = Tracks(n: nat) | AutoFit

  /** The grid popup.js picks for a number of products (see GridTemplate). */
  function GridFor(productCount: nat): Grid {
    if productCount == 1 then Tracks(1)
    else if productCount == 2 then Tracks(2)
    else if productCount == 3 then Tracks(3)
    else AutoFit
  }

  /** The CSS value written for a grid. */
  function GridCss(g: Grid): string {
    match g
    case Tracks(1) => "1fr"
    case Tracks(2) => "1fr 1fr"
    case Tracks(3) => "repeat(3, 1fr)"
    case _ => "repeat(auto-fit, minmax(150px, 1fr))"
  }

  /**
   * The grid-template-columns value for a popup with n products: one, two or
   * three equal columns for one to three products, the auto-fit layout with
   * 150px minimum columns for any other count (none included).
   */
  lemma GridTemplate(n: nat)
    ensures n == 1 ==> GridCss(GridFor(n)) == "1fr"
    ensures n == 2 ==> GridCss(GridFor(n)) == "1fr 1fr"
    ensures n == 3 ==> GridCss(GridFor(n)) == "repeat(3, 1fr)"
    ensures !(1 <= n <= 3) ==> GridCss(GridFor(n)) == "repeat(auto-fit, minmax(150px, 1fr))"
  {
  }

  /** One product card: its data-product-index, and whether a subtitle line is rendered. */
  datatype Card = Card(index: nat, product: Product, hasSubtitle: bool)

  /** CONFIG.products.map((product, index) => card): one card per product, tagged with its position. */
  function Cards(products: seq<Product>): (cards: seq<Card>)
    ensures |cards| == |products|
    ensures forall i :: 0 <= i < |cards| ==> cards[i].index == i && cards[i].product == products[i]
    ensures forall i :: 0 <= i < |cards| ==> (cards[i].hasSubtitle <==> products[i].subtitle != "")
  {
    seq(|products|, i requires 0 <= i < |products| => Card(i, products[i], products[i].subtitle != ""))
  }

  /**
   * The modal never opens empty: the config the selection loop settles on
   * renders at least one card, and its cards are its products in order.
   */
  lemma SelectedRendersCards(cs: seq<JsConfig>, width: int, storage: map<string, string>, now: int)
    ensures var first := FirstQualifying(cs, 0, width, storage, now);
      first.Some? ==>
        var d := WithDesktopDefault(cs[first.value]);
        && d.products.Some?
        && |Cards(d.products.value)| >= 1
        && forall i :: 0 <= i < |Cards(d.products.value)| ==>
             Cards(d.products.value)[i].index == i && Cards(d.products.value)[i].product == d.products.value[i]
  {
  }
}
