/**
 * The modal's life once a popup has been chosen: showModal, the four exit
 * actions (product card, close button, overlay background, Escape),
 * closeModal and markAsShown. Browser callbacks (the animation frame, the
 * 300 ms removal timer) are events in a sequential trace. Both front-end
 * scripts share this behaviour; they differ only in the value markAsShown
 * stores.
 */
module Modal {
  import opened Text

  /** Where the overlay element is: not yet created, shown, fading out, or detached. */
  datatype Phase = NotShown | Open | Closing | Removed

  /** What markAsShown stores: the current time in milliseconds, or the string "true". */
  datatype MarkMode = Timestamp | Flag

  function MarkValue(mode: MarkMode, now: int): (v: string)
    ensures v != ""
  {
    match mode
    case Timestamp => IntToString(now)
    case Flag => "true"
  }

  /** The things that happen to an open page, in the order they happen. */
  datatype Event =
    | ShowModal                      // the 500 ms timer runs showModal
    | AnimationFrame                 // the requestAnimationFrame callback
    | ClickProduct(now: int)
    | ClickClose(now: int)
    | ClickOverlay(now: int)         // a click whose target is the overlay itself
    | KeyDown(key: string, now: int)
    | RemovalTimer                   // the 300 ms timer scheduled by closeModal

  /**
   * The observable state: the overlay's phase, its `visible` class, a pending
   * animation frame, `body.style.overflow === 'hidden'`, the registered Escape
   * listener, a pending removal, the number of loaders added to the close
   * button, and localStorage.
   */
  datatype ModalState = ModalState(
    phase: Phase,
    visibleClass: bool,
    framePending: bool,
    scrollLocked: bool,
    escapeListening: bool,
    removalPending: bool,
    loaders: nat,
    storage: map<string, string>)

  /** The page before showModal runs. */
  function Initial(storage: map<string, string>): (s: ModalState)
    ensures s.phase == NotShown && s.storage == storage
  {
    ModalState(NotShown, false, false, false, false, false, 0, storage)
  }

  /** The overlay is in the document, so its buttons and cards can be clicked. */
  predicate Attached(s: ModalState) {
    s.phase == Open || s.phase == Closing
  }

  /** markAsShown(): the one storage write. */
  function MarkAsShown(s: ModalState, key: string, mode: MarkMode, now: int): ModalState {
    s.(storage := s.storage[key := MarkValue(mode, now)])
  }

  /** closeModal(modal): drop the visible class, release the scroll lock, schedule removal, mark as shown. */
  function CloseModal(s: ModalState, key: string, mode: MarkMode, now: int): ModalState {
    var closed := s.(
      phase := if s.phase == Open then Closing else s.phase,
      visibleClass := false,
      scrollLocked := false,
      removalPending := true);
    MarkAsShown(closed, key, mode, now)
  }

  /** The effect of one event on the page. */
  function Step(s: ModalState, e: Event, key: string, mode: MarkMode): ModalState {
    match e
    case ShowModal =>
      if s.phase == NotShown
      then s.(phase := Open, framePending := true, scrollLocked := true, escapeListening := true)
      else s
    case AnimationFrame =>
      if s.framePending then s.(visibleClass := true, framePending := false) else s
    case ClickProduct(now) =>
      if Attached(s) then MarkAsShown(s.(loaders := s.loaders + 1), key, mode, now) else s
    // After a product click the close button carries `loading`, whose style turns off
    // pointer events; keyboard activation still reaches it, so the event stays allowed.
    case ClickClose(now) =>
      if Attached(s) then CloseModal(s, key, mode, now) else s
    case ClickOverlay(now) =>
      if Attached(s) then CloseModal(s, key, mode, now) else s
    case KeyDown(k, now) =>
      if s.escapeListening && k == "Escape"
      then CloseModal(s, key, mode, now).(escapeListening := false)
      else s
    case RemovalTimer =>
      if s.removalPending
      then s.(phase := if s.phase == Closing then Removed else s.phase, removalPending := false)
      else s
  }

  /** The state after a whole trace of events. */
  function Run(s: ModalState, trace: seq<Event>, key: string, mode: MarkMode): ModalState
    decreases |trace|
  {
    if trace == [] then s else Run(Step(s, trace[0], key, mode), trace[1..], key, mode)
  }

  /** The state every reachable page satisfies. */
  predicate Inv(s: ModalState) {
    && (s.scrollLocked <==> s.phase == Open)
    && (s.escapeListening ==> s.phase != NotShown)
    && (s.removalPending ==> s.phase == Closing || s.phase == Removed)
    && (s.phase == Closing ==> s.removalPending)
    && (s.phase == NotShown ==> !s.visibleClass && !s.framePending && !s.removalPending && s.loaders == 0)
  }

  /** An exit event: the four user actions that call markAsShown. */
  predicate IsExit(e: Event) {
    e.ClickProduct? || e.ClickClose? || e.ClickOverlay? || (e.KeyDown? && e.key == "Escape")
  }

  /** Whether an exit event reaches its handler in state s. */
  predicate Handled(s: ModalState, e: Event) {
    if e.KeyDown? then s.escapeListening && e.key == "Escape" else IsExit(e) && Attached(s)
  }

  // ---------------------------------------------------------------- properties of one step

  lemma StepPreservesInv(s: ModalState, e: Event, key: string, mode: MarkMode)
    requires Inv(s)
    ensures Inv(Step(s, e, key, mode))
  {
  }

  /**
   * Each handled exit writes the mark under the configured key and touches no
   * other key; every other event leaves storage alone.
   */
  lemma ExitWritesOnlyTheKey(s: ModalState, e: Event, key: string, mode: MarkMode)
    ensures Handled(s, e) ==> Step(s, e, key, mode).storage == s.storage[key := MarkValue(mode, e.now)]
    ensures !Handled(s, e) ==> Step(s, e, key, mode).storage == s.storage
  {
  }

  /** A product click marks the popup as shown but leaves the modal up and the page locked. */
  lemma ProductClickKeepsModal(s: ModalState, now: int, key: string, mode: MarkMode)
    requires Attached(s)
    ensures var t := Step(s, ClickProduct(now), key, mode);
      && t.phase == s.phase && t.visibleClass == s.visibleClass && t.scrollLocked == s.scrollLocked
      && t.escapeListening == s.escapeListening && t.loaders == s.loaders + 1
  {
  }

  /**
   * The close button and the overlay release the scroll lock and hide the
   * modal but leave the Escape listener registered; only Escape removes it.
   */
  lemma ClosePathsKeepEscapeListener(s: ModalState, e: Event, key: string, mode: MarkMode)
    requires (e.ClickClose? || e.ClickOverlay?) && Attached(s)
    ensures var t := Step(s, e, key, mode);
      !t.scrollLocked && !t.visibleClass && t.removalPending && t.escapeListening == s.escapeListening
  {
  }

  lemma EscapeRemovesListener(s: ModalState, now: int, key: string, mode: MarkMode)
    requires s.escapeListening
    ensures var t := Step(s, KeyDown("Escape", now), key, mode);
      !t.escapeListening && !t.scrollLocked && !t.visibleClass
  {
  }

  // ---------------------------------------------------------------- properties of traces

  lemma {:induction false} RunPreservesInv(s: ModalState, trace: seq<Event>, key: string, mode: MarkMode)
    requires Inv(s)
    ensures Inv(Run(s, trace, key, mode))
    decreases |trace|
  {
    if trace != [] {
      StepPreservesInv(s, trace[0], key, mode);
      RunPreservesInv(Step(s, trace[0], key, mode), trace[1..], key, mode);
    }
  }

  /** Every reachable state satisfies the invariant. */
  lemma ReachableInv(storage: map<string, string>, trace: seq<Event>, key: string, mode: MarkMode)
    ensures Inv(Run(Initial(storage), trace, key, mode))
  {
    RunPreservesInv(Initial(storage), trace, key, mode);
  }

  /** Once marked, the key stays marked: no event ever clears or empties it. */
  lemma {:induction false} MarkPersists(s: ModalState, trace: seq<Event>, key: string, mode: MarkMode)
    requires key in s.storage && s.storage[key] != ""
    ensures var t := Run(s, trace, key, mode); key in t.storage && t.storage[key] != ""
    decreases |trace|
  {
    if trace != [] {
      MarkPersists(Step(s, trace[0], key, mode), trace[1..], key, mode);
    }
  }

  /** Keys other than the configured one are never written. */
  lemma {:induction false} OtherKeysUntouched(s: ModalState, trace: seq<Event>, key: string, mode: MarkMode, other: string)
    requires other != key
    ensures var t := Run(s, trace, key, mode);
      (other in t.storage <==> other in s.storage) && (other in s.storage ==> t.storage[other] == s.storage[other])
    decreases |trace|
  {
    if trace != [] {
      var next := Step(s, trace[0], key, mode);
      ExitWritesOnlyTheKey(s, trace[0], key, mode);
      assert (other in next.storage <==> other in s.storage) && (other in s.storage ==> next.storage[other] == s.storage[other]);
      OtherKeysUntouched(next, trace[1..], key, mode, other);
    }
  }

  /** After the overlay is detached, only a registered Escape listener can still do anything. */
  lemma {:induction false} RemovedStaysRemoved(s: ModalState, trace: seq<Event>, key: string, mode: MarkMode)
    requires s.phase == Removed
    ensures Run(s, trace, key, mode).phase == Removed
    decreases |trace|
  {
    if trace != [] {
      RemovedStaysRemoved(Step(s, trace[0], key, mode), trace[1..], key, mode);
    }
  }

  /** A trace with one handled exit marks the key. */
  lemma {:induction false} ExitMarks(s: ModalState, trace: seq<Event>, i: nat, key: string, mode: MarkMode)
    requires i < |trace| && Handled(Run(s, trace[..i], key, mode), trace[i])
    ensures key in Run(s, trace, key, mode).storage && Run(s, trace, key, mode).storage[key] != ""
  {
    var before := Run(s, trace[..i], key, mode);
    var after := Step(before, trace[i], key, mode);
    ExitWritesOnlyTheKey(before, trace[i], key, mode);
    RunSplit(s, trace, i + 1, key, mode);
    RunSplit(s, trace[..i + 1], i, key, mode);
    assert trace[..i + 1][..i] == trace[..i];
    assert trace[..i + 1][i..] == [trace[i]];
    assert Run(after, [], key, mode) == after;
    MarkPersists(after, trace[i + 1..], key, mode);
  }

  /** Running a trace in two pieces. */
  lemma {:induction false} RunSplit(s: ModalState, trace: seq<Event>, n: nat, key: string, mode: MarkMode)
    requires n <= |trace|
    ensures Run(s, trace, key, mode) == Run(Run(s, trace[..n], key, mode), trace[n..], key, mode)
    decreases n
  {
    if n > 0 {
      RunSplit(Step(s, trace[0], key, mode), trace[1..], n - 1, key, mode);
      assert trace[1..][..n - 1] == trace[..n][1..];
      assert trace[1..][n - 1..] == trace[n..];
    }
  }

  /**
   * Closing with the button leaves the Escape listener behind: an Escape
   * pressed after the overlay is gone runs closeModal again and overwrites the
   * timestamp with the later time.
   */
  lemma EscapeAfterCloseRewritesTimestamp(storage: map<string, string>, key: string, t1: int, t2: int)
    ensures var t := Run(Initial(storage),
                         [ShowModal, AnimationFrame, ClickClose(t1), RemovalTimer, KeyDown("Escape", t2)],
                         key, Timestamp);
      && t.phase == Removed && !t.escapeListening && !t.scrollLocked
      && t.storage == storage[key := IntToString(t2)]
  {
    var s0 := Initial(storage);
    var s1 := Step(s0, ShowModal, key, Timestamp);
    var s2 := Step(s1, AnimationFrame, key, Timestamp);
    var s3 := Step(s2, ClickClose(t1), key, Timestamp);
    var s4 := Step(s3, RemovalTimer, key, Timestamp);
    var s5 := Step(s4, KeyDown("Escape", t2), key, Timestamp);
    assert s4.phase == Removed && s4.escapeListening;
    assert s5.storage == storage[key := IntToString(t1)][key := IntToString(t2)];
    var tail4: seq<Event> := [KeyDown("Escape", t2)];
    var tail3 := [RemovalTimer] + tail4;
    var tail2 := [ClickClose(t1)] + tail3;
    var tail1 := [AnimationFrame] + tail2;
    var trace := [ShowModal] + tail1;
    assert Run(s4, tail4, key, Timestamp) == s5 by {
      assert tail4[1..] == [];
    }
    assert Run(s3, tail3, key, Timestamp) == s5 by {
      assert tail3[1..] == tail4;
    }
    assert Run(s2, tail2, key, Timestamp) == s5 by {
      assert tail2[1..] == tail3;
    }
    assert Run(s1, tail1, key, Timestamp) == s5 by {
      assert tail1[1..] == tail2;
    }
    assert Run(s0, trace, key, Timestamp) == s5 by {
      assert trace[1..] == tail1;
    }
    assert trace == [ShowModal, AnimationFrame, ClickClose(t1), RemovalTimer, KeyDown("Escape", t2)];
  }

  // ---------------------------------------------------------------- the modal as an object

  /**
   * The modal as the script holds it: DOM flags and localStorage updated in
   * place by the event handlers. `key` is CONFIG.storageKey.
   */
  class ModalSession {
    const key: string
    const mode: MarkMode
    var phase: Phase
    var visibleClass: bool
    var framePending: bool
    var scrollLocked: bool
    var escapeListening: bool
    var removalPending: bool
    var loaders: nat
    var storage: map<string, string>

    function State(): ModalState
      reads this
    {
      ModalState(phase, visibleClass, framePending, scrollLocked, escapeListening, removalPending, loaders, storage)
    }

    predicate Valid()
      reads this
    {
      Inv(State())
    }

    constructor(key: string, mode: MarkMode, storage: map<string, string>)
      ensures this.key == key && this.mode == mode
      ensures State() == Initial(storage) && Valid()
    {
      this.key := key;
      this.mode := mode;
      phase := NotShown;
      visibleClass := false;
      framePending := false;
      scrollLocked := false;
      escapeListening := false;
      removalPending := false;
      loaders := 0;
      this.storage := storage;
    }

    /** showModal(): attach the overlay, lock scrolling, request the fade-in, register the listeners. */
    method Show()
      requires Valid()
      modifies this
      ensures Valid() && State() == Step(old(State()), ShowModal, key, mode)
    {
      if phase == NotShown {
        phase := Open;
        framePending := true;
        scrollLocked := true;
        escapeListening := true;
      }
    }

    method AnimationFrame()
      requires Valid()
      modifies this
      ensures Valid() && State() == Step(old(State()), Event.AnimationFrame, key, mode)
    {
      if framePending {
        visibleClass := true;
        framePending := false;
      }
    }

    /** markAsShown(): store the mark under the configured key. */
    method MarkShown(now: int)
      requires Valid()
      modifies this
      ensures Valid() && State() == MarkAsShown(old(State()), key, mode, now)
    {
      storage := storage[key := MarkValue(mode, now)];
    }

    /** closeModal(modal). */
    method Close(now: int)
      requires Valid() && phase != NotShown
      modifies this
      ensures Valid() && State() == CloseModal(old(State()), key, mode, now)
    {
      if phase == Open {
        phase := Closing;
      }
      visibleClass := false;
      scrollLocked := false;
      removalPending := true;
      MarkShown(now);
    }

    /** A product card click: a loader on the close button, then markAsShown; the link navigates. */
    method ClickProduct(now: int)
      requires Valid()
      modifies this
      ensures Valid() && State() == Step(old(State()), Event.ClickProduct(now), key, mode)
    {
      if Attached(State()) {
        loaders := loaders + 1;
        MarkShown(now);
      }
    }

    method ClickClose(now: int)
      requires Valid()
      modifies this
      ensures Valid() && State() == Step(old(State()), Event.ClickClose(now), key, mode)
    {
      if Attached(State()) {
        Close(now);
      }
    }

    method ClickOverlay(now: int)
      requires Valid()
      modifies this
      ensures Valid() && State() == Step(old(State()), Event.ClickOverlay(now), key, mode)
    {
      if Attached(State()) {
        Close(now);
      }
    }

    /** The keydown listener: Escape closes the modal and unregisters the listener. */
    method KeyDown(k: string, now: int)
      requires Valid()
      modifies this
      ensures Valid() && State() == Step(old(State()), Event.KeyDown(k, now), key, mode)
    {
      if escapeListening && k == "Escape" {
        Close(now);
        escapeListening := false;
      }
    }

    /** The 300 ms timer: modal.remove(). */
    method RemovalTimer()
      requires Valid()
      modifies this
      ensures Valid() && State() == Step(old(State()), Event.RemovalTimer, key, mode)
    {
      if removalPending {
        if phase == Closing {
          phase := Removed;
        }
        removalPending := false;
      }
    }
  }
}
