/**
 * The whole path from the stored popups to the popup a visitor sees: the
 * server keeps the eligible popups and publishes their projections, the
 * browser takes that list as its candidates and shows the first one that
 * passes its gates; an exit then records the display in localStorage.
 */
module Pipeline {
  import opened Wrappers
  import opened Text
  import opened Records
  import opened PageRules
  import opened Filtering
  import opened FrontendFilter
  import opened PopupEngine
  import opened Modal

  /** URN_POPUP_CONFIGS as the browser reads it. */
  function Published(popups: seq<Popup>, req: Request): (js: seq<JsConfig>)
    ensures |js| == |Emitted(popups, req)|
    ensures forall k :: 0 <= k < |js| ==> js[k] == ToJs(Emitted(popups, req)[k])
  {
    var emitted := Emitted(popups, req);
    seq(|emitted|, k requires 0 <= k < |emitted| => ToJs(emitted[k]))
  }

  /**
   * The configuration displayed: None when the script is not enqueued or no
   * candidate passes; otherwise the first passing candidate, with its
   * `showOnDesktop` defaulted as the selection loop leaves it.
   */
  function SelectPopup(popups: seq<Popup>, req: Request, width: int, storage: map<string, string>, now: int): Option<JsConfig>
    requires AllSupported(popups)
  {
    var emitted := Emitted(popups, req);
    if emitted == [] then None
    else
      var candidates := ConfigSource(Globals(Some(Published(popups, req)), None));
      match FirstQualifying(candidates.value, 0, width, storage, now)
      case None => None
      case Some(k) => Some(WithDesktopDefault(candidates.value[k]))
  }

  /** A stored popup is displayed when the server keeps it and its published form passes the browser's gates. */
  predicate Shown(p: Popup, req: Request, width: int, storage: map<string, string>, now: int) {
    Eligible(p, req) && Qualifies(ToJs(Project(p)), width, storage, now)
  }

  /** The reference selection over stored records: the first stored popup that is displayed. */
  function FirstShown(popups: seq<Popup>, req: Request, width: int, storage: map<string, string>, now: int): Option<nat> {
    FirstWhere(popups, 0, p => Shown(p, req, width, storage, now))
  }

  /**
   * Server and browser together select exactly the first stored popup that
   * is enabled, has products, matches the page and passes the device and
   * frequency gates; popups the server drops never reach the browser, and the
   * browser never looks past the first one that passes.
   */
  lemma SelectPopupIsFirstShown(popups: seq<Popup>, req: Request, width: int, storage: map<string, string>, now: int)
    requires AllSupported(popups)
    ensures var first := FirstShown(popups, req, width, storage, now);
      && (first.None? ==> SelectPopup(popups, req, width, storage, now).None?)
      && (first.Some? ==> SelectPopup(popups, req, width, storage, now) == Some(WithDesktopDefault(ToJs(Project(popups[first.value])))))
  {
    var keep := p => Eligible(p, req);
    var publish := p => ToJs(Project(p));
    var qual := c => Qualifies(c, width, storage, now);
    var js := Published(popups, req);
    PublishedIsFilterMap(popups, req);
    assert js == FilterMap(popups, keep, publish);
    FirstQualifyingIsFirstWhere(js, width, storage, now);
    FirstAfterFilter(popups, keep, publish, qual, p => Shown(p, req, width, storage, now));
    if Emitted(popups, req) != [] {
      assert ConfigSource(Globals(Some(js), None)) == Some(js);
    }
  }

  /** The published list is itself a filter of the stored popups. */
  lemma PublishedIsFilterMap(popups: seq<Popup>, req: Request)
    ensures Published(popups, req) == FilterMap(popups, p => Eligible(p, req), p => ToJs(Project(p)))
  {
    var keep := p => Eligible(p, req);
    var publish := p => ToJs(Project(p));
    FilterMapAtPositions(popups, keep, Project);
    FilterMapAtPositions(popups, keep, publish);
  }

  /** The selection loop's search is the generic first-match search with the browser's test. */
  lemma FirstQualifyingIsFirstWhere(cs: seq<JsConfig>, width: int, storage: map<string, string>, now: int)
    ensures FirstQualifying(cs, 0, width, storage, now) == FirstWhere(cs, 0, c => Qualifies(c, width, storage, now))
  {
    var a := FirstQualifying(cs, 0, width, storage, now);
    var b := FirstWhere(cs, 0, c => Qualifies(c, width, storage, now));
    if a.Some? && b.Some? {
      assert !(a.value < b.value) && !(b.value < a.value);
    }
  }

  /** A stored popup that would be displayed guarantees that something is, and nothing stored after it. */
  lemma EarlierStoredWins(popups: seq<Popup>, i: nat, req: Request, width: int, storage: map<string, string>, now: int)
    requires AllSupported(popups)
    requires i < |popups| && Shown(popups[i], req, width, storage, now)
    ensures var first := FirstShown(popups, req, width, storage, now);
      first.Some? && first.value <= i
      && SelectPopup(popups, req, width, storage, now) == Some(WithDesktopDefault(ToJs(Project(popups[first.value]))))
  {
    SelectPopupIsFirstShown(popups, req, width, storage, now);
  }

  /**
   * The server never publishes `showOnDesktop`, so on a viewport wider than
   * 768 pixels no plugin popup is ever displayed, whatever the admin set.
   */
  lemma NeverOnDesktop(popups: seq<Popup>, req: Request, width: int, storage: map<string, string>, now: int)
    requires AllSupported(popups) && width > MobileMaxWidth
    ensures SelectPopup(popups, req, width, storage, now).None?
  {
    SelectPopupIsFirstShown(popups, req, width, storage, now);
    forall i | 0 <= i < |popups| ensures !Shown(popups[i], req, width, storage, now) {
      var c := WithDesktopDefault(ToJs(Project(popups[i])));
      DeviceGate(c, width, storage, now);
    }
    assert FirstShown(popups, req, width, storage, now).None?;
  }

  /** What the admin's desktop checkbox would have to change, and cannot: the published config. */
  lemma DesktopSettingIgnored(p: Popup, q: Popup, req: Request, width: int, storage: map<string, string>, now: int)
    requires q == p.(showOnDesktop := q.showOnDesktop)
    ensures Shown(p, req, width, storage, now) == Shown(q, req, width, storage, now)
  {
    assert Project(p) == Project(q);
  }

  /**
   * Show-once: once a visitor has left a displayed popup whose re-display
   * setting is 0 by any exit, that popup is never displayed to them again,
   * at any width and any later time.
   */
  lemma ShowOnceAfterExit(p: Popup, req: Request, storage: map<string, string>, trace: seq<Event>, i: nat,
                          width: int, later: int)
    requires p.redisplayDays == 0
    requires i < |trace| && Handled(Run(Initial(storage), trace[..i], p.storageKey, Timestamp), trace[i])
    ensures !Shown(p, req, width, Run(Initial(storage), trace, p.storageKey, Timestamp).storage, later)
  {
    var after := Run(Initial(storage), trace, p.storageKey, Timestamp).storage;
    ExitMarks(Initial(storage), trace, i, p.storageKey, Timestamp);
    var c := WithDesktopDefault(ToJs(Project(p)));
    ShownOnceNeverAgain(c, width, after, later);
  }

  /**
   * Re-display: after a visitor closes a popup re-displayed every N > 0 days
   * at time T, on a phone-sized viewport the popup is displayed again at time
   * `now` exactly when N days have passed since T.
   */
  lemma RedisplayAfterClose(p: Popup, req: Request, s: ModalState, t: int, width: int, now: int)
    requires Eligible(p, req) && p.redisplayDays > 0
    requires Attached(s) && width <= MobileMaxWidth
    ensures Shown(p, req, width, Step(s, ClickClose(t), p.storageKey, Timestamp).storage, now)
        <==> now - t >= p.redisplayDays * DayMs
  {
    var after := Step(s, ClickClose(t), p.storageKey, Timestamp).storage;
    assert after == s.storage[p.storageKey := IntToString(t)];
    var c := WithDesktopDefault(ToJs(Project(p)));
    RedisplayAfterDays(c, width, after, now, t);
  }

  /** Other popups' records in localStorage are not touched by this popup's exits. */
  lemma ExitsLeaveOtherPopupsAlone(p: Popup, q: Popup, req: Request, storage: map<string, string>, trace: seq<Event>,
                                   width: int, now: int)
    requires q.storageKey != p.storageKey
    ensures Shown(q, req, width, Run(Initial(storage), trace, p.storageKey, Timestamp).storage, now)
        == Shown(q, req, width, storage, now)
  {
    var after := Run(Initial(storage), trace, p.storageKey, Timestamp).storage;
    OtherKeysUntouched(Initial(storage), trace, p.storageKey, Timestamp, q.storageKey);
    assert Stored(after, q.storageKey) == Stored(storage, q.storageKey);
  }

  /**
   * The modal a visitor sees shows the products stored with the selected
   * popup, one card each and in the order the admin saved them, and at least one.
   */
  lemma ShownCardsAreStoredProducts(popups: seq<Popup>, req: Request, width: int, storage: map<string, string>, now: int)
    requires AllSupported(popups)
    ensures var first := FirstShown(popups, req, width, storage, now);
      first.Some? ==>
        var c := SelectPopup(popups, req, width, storage, now);
        && c.Some? && c.value.products == Some(popups[first.value].products)
        && |Cards(popups[first.value].products)| >= 1
  {
    SelectPopupIsFirstShown(popups, req, width, storage, now);
  }
}
