/**
 * The stand-alone urn selection script that predates the plugin: one fixed
 * configuration, a show-once flag in localStorage and the 768-pixel mobile
 * limit. Its gate is the plugin engine's gate for a single configuration that
 * never re-displays and is not shown on desktop.
 */
module LegacyPopup {
  import opened Wrappers
  import opened Records
  import opened PopupEngine
  import opened Modal

  const LegacyKey: string := "loop_urn_selection_shown"
  const LegacyMaxWidth: int := 768
  const LegacyTitle: string := "In welke urn bent u ge\U{EF}nteresseerd?"

  const Furever: Product := Product(
    "Loop FurEver\U{2122}",
    "Voor huisdieren",
    "https://loop-biotech.com/nl/product/furever/",
    "https://loop-biotech.com/wp-content/uploads/2025/09/Ontwerp-zonder-titel-15-1024x791.png")

  const Earthrise: Product := Product(
    "Loop EarthRise\U{2122}",
    "Voor mensen",
    "https://loop-biotech.com/nl/product/earthrise/",
    "https://loop-biotech.com/wp-content/uploads/2025/03/loop_earthrise-1024x687.webp")

  /** shouldShowPopup(): any stored value blocks, then the viewport must be at most 768 pixels wide. */
  predicate ShouldShowLegacy(width: int, storage: map<string, string>) {
    if Stored(storage, LegacyKey) != "" then false
    else if width > LegacyMaxWidth then false
    else true
  }

  /** The legacy script's fixed configuration, in the plugin's configuration shape. */
  function LegacyConfig(): (c: JsConfig)
    ensures c.storageKey == LegacyKey && HasProducts(c)
    ensures ShowOnce(c) && !ShowsOnDesktop(c)
  {
    JsConfig(LegacyKey, Some(LegacyMaxWidth), LegacyTitle, Some([Furever, Earthrise]), None, None)
  }

  /**
   * The legacy gate is the plugin engine run on the one-element list holding
   * the fixed configuration: the checks come in the other order but decide the
   * same way, for every clock value.
   */
  lemma LegacyIsEngineWithOneConfig(width: int, storage: map<string, string>, now: int)
    ensures ShouldShowLegacy(width, storage) == ShouldShowPopup(LegacyConfig(), width, storage, now)
    ensures ShouldShowLegacy(width, storage) <==> FirstQualifying([LegacyConfig()], 0, width, storage, now) == Some(0)
  {
    var c := LegacyConfig();
    DesktopDefaultIsNeutral(c, width, storage, now);
    if Stored(storage, LegacyKey) != "" {
      ShownOnceNeverAgain(c, width, storage, now);
    } else {
      NothingStoredPasses(c, width, storage, now);
    }
  }

  /** What init() sets in motion. */
  datatype InitOutcome = InitOutcome(stylesInjected: bool, modalScheduled: bool)

  /** init(): when the gate fails nothing happens; otherwise styles go in and showModal is scheduled. */
  function Init(width: int, storage: map<string, string>): (o: InitOutcome)
    ensures !ShouldShowLegacy(width, storage) ==> !o.stylesInjected && !o.modalScheduled
    ensures ShouldShowLegacy(width, storage) ==> o.stylesInjected && o.modalScheduled
  {
    if !ShouldShowLegacy(width, storage) then InitOutcome(false, false)
    else InitOutcome(true, true)
  }

  /**
   * markAsShown stores "true", so once any exit (product, close, overlay,
   * Escape) has run, whatever else happens on the page, the popup is not shown
   * again at any width.
   */
  lemma NeverAgainAfterExit(storage: map<string, string>, trace: seq<Event>, i: nat, width: int)
    requires i < |trace| && Handled(Run(Initial(storage), trace[..i], LegacyKey, Flag), trace[i])
    ensures !ShouldShowLegacy(width, Run(Initial(storage), trace, LegacyKey, Flag).storage)
    ensures !Init(width, Run(Initial(storage), trace, LegacyKey, Flag).storage).modalScheduled
  {
    ExitMarks(Initial(storage), trace, i, LegacyKey, Flag);
  }
}
