/**
 * Loop_Product_Selector::enqueue_frontend_scripts: the server keeps, in stored
 * order, the popups that are enabled, have products and match the current
 * page, and hands their five-field projections to the browser. When none is
 * left, the script is not enqueued at all.
 */
module FrontendFilter {
  import opened Wrappers
  import opened Records
  import opened PageRules
  import opened Filtering

  /** One entry of URN_POPUP_CONFIGS: exactly the five fields the server writes. */
  datatype ServerConfig = ServerConfig(
    storageKey: string,
    mobileMaxWidth: int,
    title: string,
    products: seq<Product>,
    redisplayDays: int)

  /** PHP intval() of a stored integer field; a missing key reads as null, which is 0. */
  function Intval(v: Option<int>): (r: int)
    ensures v.None? ==> r == 0
    ensures v.Some? ==> r == v.value
  {
    match v
    case None => 0
    case Some(i) => i
  }

  /** The three skip tests of the loop, in order; rules outside the supported pattern subset are not modelled. */
  predicate Eligible(p: Popup, req: Request) {
    p.enabled && |p.products| > 0 && Supported(p.pageRules) && MatchesPageRules(p.pageRules, req)
  }

  /** The array appended for an eligible popup. */
  function Project(p: Popup): ServerConfig {
    ServerConfig(p.storageKey, Intval(p.mobileMaxWidth), p.title, p.products, p.redisplayDays)
  }

  /** $matching_popups: the projections of the eligible popups, in stored order. */
  function Emitted(popups: seq<Popup>, req: Request): seq<ServerConfig> {
    FilterMap(popups, p => Eligible(p, req), Project)
  }

  /** Every stored rules text lies inside the modelled pattern language. */
  predicate AllSupported(popups: seq<Popup>) {
    forall i :: 0 <= i < |popups| ==> Supported(popups[i].pageRules)
  }

  /**
   * The foreach over the stored popups. None stands for "return before
   * enqueueing"; otherwise the list is what wp_localize_script publishes.
   */
  method EnqueueFrontendScripts(popups: seq<Popup>, req: Request) returns (configs: Option<seq<ServerConfig>>)
    requires AllSupported(popups)
    ensures configs.None? <==> Emitted(popups, req) == []
    ensures configs.Some? ==> configs.value == Emitted(popups, req)
  {
    var matching: seq<ServerConfig> := [];
    var i := 0;
    while i < |popups|
      invariant 0 <= i <= |popups|
      invariant matching == Emitted(popups[..i], req)
    {
      assert popups[..i + 1][..i] == popups[..i];
      var popup := popups[i];
      if !popup.enabled {
        i := i + 1;
        continue;
      }
      if |popup.products| == 0 {
        i := i + 1;
        continue;
      }
      if !MatchesPageRules(popup.pageRules, req) {
        i := i + 1;
        continue;
      }
      matching := matching + [Project(popup)];
      i := i + 1;
    }
    assert popups[..i] == popups;
    if matching == [] {
      return None;
    }
    configs := Some(matching);
  }

  /**
   * The published list is the subsequence of eligible popups in stored order:
   * its k-th entry is the projection of the k-th eligible popup.
   */
  lemma EmittedSpec(popups: seq<Popup>, req: Request)
    ensures |Emitted(popups, req)| == |Positions(popups, p => Eligible(p, req))| <= |popups|
    ensures forall k :: 0 <= k < |Emitted(popups, req)| ==>
      var i := Positions(popups, p => Eligible(p, req))[k];
      i < |popups| && Eligible(popups[i], req) && Emitted(popups, req)[k] == Project(popups[i])
    ensures forall i :: 0 <= i < |popups| && Eligible(popups[i], req) ==> Project(popups[i]) in Emitted(popups, req)
  {
    FilterMapAtPositions(popups, p => Eligible(p, req), Project);
    FilterMapMembers(popups, p => Eligible(p, req), Project);
  }

  /** Nothing is enqueued exactly when no stored popup is eligible. */
  lemma NothingEligibleNothingEnqueued(popups: seq<Popup>, req: Request)
    ensures Emitted(popups, req) == [] <==> forall i :: 0 <= i < |popups| ==> !Eligible(popups[i], req)
  {
    FilterMapEmptyIff(popups, p => Eligible(p, req), Project);
  }

  /** Every published config has products: the server already applied the client's product check. */
  lemma EmittedHaveProducts(popups: seq<Popup>, req: Request)
    ensures forall k :: 0 <= k < |Emitted(popups, req)| ==> |Emitted(popups, req)[k].products| > 0
  {
    EmittedSpec(popups, req);
  }

  /**
   * The published entry as the browser reads it: every field it has is
   * defined, and `showOnDesktop` is not among them.
   */
  function ToJs(c: ServerConfig): (j: JsConfig)
    ensures j.showOnDesktop.None?
    ensures j.storageKey == c.storageKey && j.title == c.title
    ensures j.products == Some(c.products) && j.redisplayDays == Some(c.redisplayDays)
    ensures j.mobileMaxWidth == Some(c.mobileMaxWidth)
  {
    JsConfig(c.storageKey, Some(c.mobileMaxWidth), c.title, Some(c.products), Some(c.redisplayDays), None)
  }
}
