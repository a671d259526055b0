/** The Android view renderer of `ARFaceView`: the measure-spec packing it
    re-implements, the `Element` property that swaps the hosted `ARFragment`,
    exact measuring, the label-for bookkeeping and `Dispose`. The Xamarin.Forms
    platform (trackers, the renderer registry, fragment transactions) is recorded
    as fields and event logs rather than executed. */
module FaceView {
  import opened Common
  import opened CSharp

  // ---------------------------------------------------------------------------
  // MeasureSpecFactory. A measure spec is a C# `int`, held here as its 32-bit
  // pattern so that the unchecked `+` wraps as it does on the device: the top two
  // bits carry the mode and the low thirty bits the size.

  datatype MeasureSpecMode = Unspecified | Exactly | AtMost

  /** `0x3 << 30`, the mode bits. */
  const MODE_MASK: bv32 := 3 << 30

  /** The values of Xamarin.Forms' `MeasureSpecMode`, which are Android's
      `MeasureSpec.UNSPECIFIED`, `EXACTLY` and `AT_MOST`: 0, 1 << 30 and 2 << 30. */
  function ModeBits(m: MeasureSpecMode): (r: bv32)
    ensures r & !MODE_MASK == 0
    ensures m != Unspecified ==> r != 0
  {
    match m
    case Unspecified => 0
    case Exactly => 1 << 30
    case AtMost => 2 << 30
  }

  /** The mode a spec's top two bits name; the pattern `11` names none. */
  function ModeOf(spec: bv32): (r: Option<MeasureSpecMode>)
    ensures r.Some? ==> ModeBits(r.value) == spec & MODE_MASK
    ensures r.None? <==> spec & MODE_MASK == MODE_MASK
  {
    var top := spec & MODE_MASK;
    if top == 0 then Some(Unspecified)
    else if top == 1 << 30 then Some(Exactly)
    else if top == 2 << 30 then Some(AtMost)
    else None
  }

  /** `GetSize`: the spec with its two mode bits cleared. */
  function GetSize(spec: bv32): (r: bv32)
    ensures r < 0x4000_0000
    ensures r & !MODE_MASK == spec & !MODE_MASK
  {
    spec & !MODE_MASK
  }

  /** `MakeMeasureSpec`: the size plus the mode's value, in unchecked `int`
      arithmetic. A size that fits in thirty bits comes back out unchanged, and
      so does the mode. */
  function MakeMeasureSpec(size: bv32, mode: MeasureSpecMode): (r: bv32)
    ensures size < 0x4000_0000 ==> GetSize(r) == size && ModeOf(r) == Some(mode)
  {
    size + ModeBits(mode)
  }

  /** The other direction of the round trip: a spec with a valid mode is the spec
      built from its own size and mode. */
  lemma SpecIsSizeAndMode(spec: bv32)
    requires ModeOf(spec).Some?
    ensures MakeMeasureSpec(GetSize(spec), ModeOf(spec).value) == spec
  {
  }

  /** Android's own packing, `(size & ~MODE_MASK) | (mode & MODE_MASK)`, which the
      comment on `MakeMeasureSpec` says it reproduces. */
  function AndroidMakeMeasureSpec(size: bv32, mode: MeasureSpecMode): (r: bv32)
    ensures GetSize(r) == GetSize(size)
    ensures ModeOf(r) == Some(mode)
  {
    (size & !MODE_MASK) | (ModeBits(mode) & MODE_MASK)
  }

  /** The addition agrees with Android's packing exactly when the size fits in
      thirty bits (for a mode other than UNSPECIFIED; with mode 0 both keep a
      size whose top bits are clear). A larger size carries into the mode bits. */
  lemma AgreesWithAndroidWhenSizeFits(size: bv32, mode: MeasureSpecMode)
    requires mode != Unspecified
    ensures MakeMeasureSpec(size, mode) == AndroidMakeMeasureSpec(size, mode) <==> size < 0x4000_0000
  {
  }

  /** A size of 2^30 pixels asked for EXACTLY comes out as AT_MOST with size 0. */
  lemma OversizeBecomesAtMost()
    ensures ModeOf(MakeMeasureSpec(0x4000_0000, Exactly)) == Some(AtMost)
    ensures GetSize(MakeMeasureSpec(0x4000_0000, Exactly)) == 0
  {
  }

  /** The 32-bit pattern of a C# `int`. */
  function Bits(x: int): (r: bv32)
    requires IsInt32(x)
    ensures 0 <= x < 0x4000_0000 ==> r < 0x4000_0000
  {
    var u := if x < 0 then x + 0x1_0000_0000 else x;
    SmallBits(u);
    u as bv32
  }

  lemma SmallBits(x: int)
    requires 0 <= x < 0x1_0000_0000
    ensures x < 0x4000_0000 ==> (x as bv32) < 0x4000_0000
  {
  }

  /** The `(int)` cast of a pixel value: truncation toward zero, saturating at
      the ends of the `int` range. */
  function CastToInt(x: real): (r: int)
    ensures IsInt32(r)
    ensures 0.0 <= x < 0x8000_0000 as real ==> r == x.Floor
    ensures 0.0 <= x ==> 0 <= r
  {
    var t := if x >= 0.0 then x.Floor else -((-x).Floor);
    if t > INT_MAX then INT_MAX else if t < INT_MIN then INT_MIN else t
  }

  // ---------------------------------------------------------------------------
  // The renderer.

  /** A reference to a Xamarin.Forms `VisualElement`: the object's identity and
      its runtime type (an object's type never changes, so it travels with the
      identity). Equality of these values is C# reference equality. The laid-out
      size is mutable state of the object, not part of the reference, and is
      read where `MeasureExactly` reads it. */
  datatype VisualElement = VisualElement(id: nat, isFaceView: bool)

  /** An `ARFragment` this renderer created: its serial number and the element
      it was handed. */
  datatype FragmentRef = FragmentRef(serial: nat, element: Option<VisualElement>)

  /** `ARFaceViewRenderer`. `subscribed` counts the `PropertyChanged` handlers
      attached per element id; `transactions` lists the fragment each committed
      `Replace` put in the view's slot (a null fragment is never committed); `changed` lists the (old, new) pairs of
      the `ElementChanged` events raised; `registeredFor` is the element the
      platform's renderer registry maps to this renderer. */
  datatype ViewRenderer = ViewRenderer(
    element: Option<VisualElement>,
    fragment: Option<FragmentRef>,
    fragmentsCreated: nat,
    disposedFragments: seq<nat>,
    subscribed: multiset<nat>,
    transactions: seq<FragmentRef>,
    changed: seq<(Option<VisualElement>, Option<VisualElement>)>,
    hasId: bool,
    hasTracker: bool,
    hasVisualRenderer: bool,
    listenersCleared: bool,
    registeredFor: Option<nat>,
    labelFor: int,
    defaultLabelFor: Option<int>,
    disposed: bool)

  /** The constructor: only the `VisualElementRenderer` exists. */
  function Fresh(labelFor: int): (r: ViewRenderer)
    ensures r.element.None? && r.fragment.None? && !r.disposed
    ensures r.hasVisualRenderer && !r.hasTracker
    ensures Sound(r)
  {
    ViewRenderer(None, None, 0, [], multiset{}, [], [], false, false, true, false, None, labelFor, None, false)
  }

  /** The handlers an element's renderer should have attached: one, to its element. */
  function Handlers(e: Option<VisualElement>): multiset<nat> {
    if e.Some? then multiset{e.value.id} else multiset{}
  }

  /** Every fragment number in `disposed` was handed out, and none twice. */
  predicate Ledger(disposed: seq<nat>, created: nat) {
    (forall i :: 0 <= i < |disposed| ==> disposed[i] < created)
    && (forall i, j :: 0 <= i < j < |disposed| ==> disposed[i] != disposed[j])
  }

  /** What the renderer keeps true between calls: every fragment it created is
      disposed at most once and the live one not yet; the element field, typed
      `ARFaceView`, holds only face views; the live fragment holds
      the current element; a disposed renderer holds no fragment. */
  predicate Sound(r: ViewRenderer) {
    Ledger(r.disposedFragments, r.fragmentsCreated)
    && (r.element.Some? ==> r.element.value.isFaceView)
    && (r.fragment.Some? ==>
          r.fragment.value.serial < r.fragmentsCreated
          && r.fragment.value.serial !in r.disposedFragments
          && r.fragment.value.element == r.element
          && r.element.Some?)
    && (r.disposed ==> r.fragment.None?)
  }

  /** `aRFragment?.Dispose(); aRFragment = null`. */
  function DropFragment(r: ViewRenderer): (o: ViewRenderer)
    ensures o.fragment.None?
    ensures r.fragment.Some? ==> o.disposedFragments == r.disposedFragments + [r.fragment.value.serial]
    ensures r.fragment.None? ==> o.disposedFragments == r.disposedFragments
    ensures o == r.(fragment := None, disposedFragments := o.disposedFragments)
  {
    if r.fragment.Some? then
      r.(fragment := None, disposedFragments := r.disposedFragments + [r.fragment.value.serial])
    else r
  }

  /** Disposing the live fragment keeps every fragment disposed at most once. */
  lemma DropKeepsLedger(r: ViewRenderer)
    requires Sound(r)
    ensures Ledger(DropFragment(r).disposedFragments, r.fragmentsCreated)
  {
    if r.fragment.Some? {
      var d := r.disposedFragments;
      var d' := DropFragment(r).disposedFragments;
      var x := r.fragment.value.serial;
      assert d' == d + [x];
      forall i, j | 0 <= i < j < |d'|
        ensures d'[i] != d'[j]
      {
        assert d'[i] == d[i];
        if j == |d| {
          assert d'[j] == x;
          assert d[i] in d;
        } else {
          assert d'[j] == d[j];
        }
      }
      forall i | 0 <= i < |d'|
        ensures d'[i] < r.fragmentsCreated
      {
        if i < |d| { assert d'[i] == d[i]; }
      }
    }
  }

  /** The first half of `OnElementChanged`: with an old element, detach its
      handler and dispose the fragment. */
  function Detach(r: ViewRenderer, before: Option<VisualElement>): (o: ViewRenderer)
    ensures o.subscribed == r.subscribed - Handlers(before)
    ensures before.Some? ==> o.fragment.None?
    ensures before.Some? ==> o.disposedFragments == DropFragment(r).disposedFragments
    ensures before.None? ==> o == r
    ensures o == r.(subscribed := o.subscribed, fragment := o.fragment, disposedFragments := o.disposedFragments)
  {
    if before.Some? then DropFragment(r.(subscribed := r.subscribed - Handlers(before))) else r
  }

  /** The second half: with a new element, give the view an id, attach the
      handler and create a fragment for the element, which `Replace` commits into
      the view's slot. Without one, `aRFragment` is set to the null fragment handed
      to `Replace`, which raises (see `OnElementChanged`) before committing. */
  function Attach(r: ViewRenderer, after: Option<VisualElement>): (o: ViewRenderer)
    requires r.element == after
    ensures after.Some? ==> o.fragment == Some(FragmentRef(r.fragmentsCreated, after))
    ensures after.Some? ==> o.fragmentsCreated == r.fragmentsCreated + 1 && o.hasId
    ensures after.Some? ==> o.transactions == r.transactions + [o.fragment.value]
    ensures after.None? ==> o == r.(fragment := None)
    ensures o.subscribed == r.subscribed + Handlers(after)
    ensures o == r.(subscribed := o.subscribed, fragment := o.fragment, fragmentsCreated := o.fragmentsCreated,
                    hasId := o.hasId, transactions := o.transactions)
  {
    if after.None? then r.(fragment := None)
    else
      var nf := FragmentRef(r.fragmentsCreated, r.element);
      r.(hasId := true, subscribed := r.subscribed + Handlers(after), fragmentsCreated := r.fragmentsCreated + 1,
         fragment := Some(nf), transactions := r.transactions + [nf])
  }

  /** What a call on the renderer leaves behind: its state and the exception it
      raised, if any. */
  datatype Outcome = Outcome(renderer: ViewRenderer, thrown: Option<Error>)

  /** `OnElementChanged`: detach from the old element and dispose its fragment,
      attach to the new one with a fresh fragment, commit the swap, and raise
      `ElementChanged`. `r.element` already holds the new element. Without a new
      element the fragment handed to `Replace` is null, and AndroidX's fragment
      transaction dereferences it: a NullPointerException escapes after the old
      element is detached and `aRFragment` set to null, with nothing committed
      and no event raised. */
  function OnElementChanged(r: ViewRenderer, before: Option<VisualElement>, after: Option<VisualElement>): (o: Outcome)
    requires r.element == after
    ensures o.renderer.element == after
    ensures o.thrown.Some? <==> after.None?
    ensures o.thrown.Some? ==> o.thrown == Some(NullReference)
    ensures after.Some? ==> o.renderer.fragment == Some(FragmentRef(r.fragmentsCreated, after))
    ensures after.None? ==> o.renderer.fragment.None?
    ensures o.renderer.fragmentsCreated == r.fragmentsCreated + (if after.Some? then 1 else 0)
    ensures after.Some? ==> o.renderer.transactions == r.transactions + [o.renderer.fragment.value]
    ensures after.Some? ==> o.renderer.changed == r.changed + [(before, after)]
    ensures after.None? ==> o.renderer.transactions == r.transactions && o.renderer.changed == r.changed
    ensures o.renderer.subscribed == r.subscribed - Handlers(before) + Handlers(after)
    ensures before.Some? ==> o.renderer.disposedFragments == DropFragment(r).disposedFragments
    ensures before.None? ==> o.renderer.disposedFragments == r.disposedFragments
    ensures o.renderer.disposed == r.disposed
    ensures o.renderer.registeredFor == r.registeredFor
    ensures o.renderer.labelFor == r.labelFor
  {
    var a := Attach(Detach(r, before), after);
    if after.None? then Outcome(a, Some(NullReference))
    else Outcome(a.(changed := a.changed + [(before, after)]), None)
  }

  /** The `Element` setter. Setting the current value does nothing; any other
      value is narrowed with `as ARFaceView`, so an element of another type is
      stored as null, and then `OnElementChanged` raises. */
  function SetElement(r: ViewRenderer, value: Option<VisualElement>): (o: Outcome)
    ensures r.element == value ==> o == Outcome(r, None)
    ensures r.element != value ==> o.renderer.element == (if value.Some? && value.value.isFaceView then value else None)
    ensures r.element != value ==> (o.thrown.None? <==> value.Some? && value.value.isFaceView)
    ensures o.thrown.Some? ==>
      && o.thrown == Some(NullReference) && o.renderer.fragment.None?
      && o.renderer.changed == r.changed && o.renderer.transactions == r.transactions
    ensures r.element != value && o.thrown.None? ==>
      && o.renderer.changed == r.changed + [(r.element, value)]
      && o.renderer.fragment.Some? && o.renderer.transactions == r.transactions + [o.renderer.fragment.value]
  {
    if r.element == value then Outcome(r, None)
    else
      var narrowed := if value.Some? && value.value.isFaceView then value else None;
      OnElementChanged(r.(element := narrowed), r.element, narrowed)
  }

  /** Setting an element, whether or not the call raises, keeps the renderer
      sound, leaves a fragment exactly when there is an element, and leaves
      exactly that element's handler attached. */
  lemma SetElementKeepsSound(r: ViewRenderer, value: Option<VisualElement>)
    requires Sound(r) && !r.disposed && r.subscribed == Handlers(r.element)
    ensures var o := SetElement(r, value).renderer;
            Sound(o) && o.subscribed == Handlers(o.element)
            && (r.element != value ==> (o.fragment.Some? <==> o.element.Some?))
  {
    if r.element != value {
      var narrowed := if value.Some? && value.value.isFaceView then value else None;
      var d := Detach(r.(element := narrowed), r.element);
      DetachClears(r, narrowed);
      var a := Attach(d, narrowed);
      AttachKeepsSound(d, narrowed);
      SetElementSteps(r, value);
      if narrowed.Some? {
        LogKeepsSound(a, (r.element, narrowed));
      }
    }
  }

  /** Setting an `ARFaceView` (or null) a second time changes nothing and raises
      nothing, whatever its layout or the first call did: the setter compares
      references, and the first call stored the value even if it raised. */
  lemma SetElementAgain(r: ViewRenderer, value: Option<VisualElement>)
    requires value.None? || value.value.isFaceView
    ensures var once := SetElement(r, value).renderer;
            SetElement(once, value) == Outcome(once, None)
  {
  }

  /** An element of another type is stored as null and the null fragment makes
      the call raise: the old element is detached and its fragment disposed, but
      nothing is committed and no event is raised. Null is not the value being
      set, so setting it again raises again. */
  lemma OtherElementRaises(r: ViewRenderer, value: Option<VisualElement>)
    requires Sound(r)
    requires value.Some? && !value.value.isFaceView
    ensures var once := SetElement(r, value);
            && once.thrown == Some(NullReference)
            && once.renderer.element.None? && once.renderer.fragment.None?
            && once.renderer.changed == r.changed && once.renderer.transactions == r.transactions
            && SetElement(once.renderer, value).thrown == Some(NullReference)
  {
  }

  /** The setter, for a new value, is detach and attach, then either the event
      or, without a new element, the exception. */
  lemma SetElementSteps(r: ViewRenderer, value: Option<VisualElement>)
    requires r.element != value
    ensures var narrowed := if value.Some? && value.value.isFaceView then value else None;
            var a := Attach(Detach(r.(element := narrowed), r.element), narrowed);
            SetElement(r, value) == if narrowed.None? then Outcome(a, Some(NullReference))
                                    else Outcome(a.(changed := a.changed + [(r.element, narrowed)]), None)
  {
  }

  /** Raising an event leaves the renderer as sound as it was. */
  lemma LogKeepsSound(a: ViewRenderer, event: (Option<VisualElement>, Option<VisualElement>))
    requires Sound(a)
    ensures Sound(a.(changed := a.changed + [event]))
  {
  }

  /** Detaching from the current element leaves no handler and no fragment, and
      every fragment disposed at most once. */
  lemma DetachClears(r: ViewRenderer, after: Option<VisualElement>)
    requires Sound(r) && !r.disposed && r.subscribed == Handlers(r.element)
    ensures var d := Detach(r.(element := after), r.element);
            d.fragment.None? && d.subscribed == multiset{} && !d.disposed && d.element == after
            && Ledger(d.disposedFragments, d.fragmentsCreated)
  {
    DropKeepsLedger(r);
    if r.element.Some? {
      assert DropFragment(r.(element := after)).disposedFragments == DropFragment(r).disposedFragments;
    }
  }

  /** Attaching to an element from a detached renderer leaves it sound, with the
      element's handler alone attached and a fragment exactly when there is an
      element. */
  lemma AttachKeepsSound(d: ViewRenderer, after: Option<VisualElement>)
    requires d.element == after && d.fragment.None? && !d.disposed
    requires after.Some? ==> after.value.isFaceView
    requires Ledger(d.disposedFragments, d.fragmentsCreated) && d.subscribed == multiset{}
    ensures Sound(Attach(d, after))
    ensures Attach(d, after).subscribed == Handlers(after)
    ensures Attach(d, after).fragment.Some? <==> after.Some?
  {
    var a := Attach(d, after);
    if after.Some? {
      var x := d.fragmentsCreated;
      assert forall y | y in d.disposedFragments :: y < x;
    }
  }

  /** `IVisualElementRenderer.SetElement`: rejects anything but an `ARFaceView`,
      creates the tracker on first use, then goes through the setter. */
  function SetElementFromPlatform(r: ViewRenderer, e: VisualElement): (o: Result<ViewRenderer>)
    ensures o.Err? <==> !e.isFaceView
    ensures o.Err? ==> o.error == WrongElementType
    ensures o.Ok? ==> o.value.element == Some(e) && o.value.hasTracker
  {
    if !e.isFaceView then Err(WrongElementType)
    else Ok(SetElement(r.(hasTracker := true), Some(e)).renderer)
  }

  /** `SetLabelFor`: the first call remembers the view's own label, and a null id
      puts that label back. */
  function SetLabelFor(r: ViewRenderer, id: Option<int>): (o: ViewRenderer)
    ensures o.defaultLabelFor == (if r.defaultLabelFor.None? then Some(r.labelFor) else r.defaultLabelFor)
    ensures id.Some? ==> o.labelFor == id.value
    ensures id.None? ==> o.labelFor == o.defaultLabelFor.value
    ensures o == r.(labelFor := o.labelFor, defaultLabelFor := o.defaultLabelFor)
  {
    var remembered := if r.defaultLabelFor.None? then r.labelFor else r.defaultLabelFor.value;
    r.(defaultLabelFor := Some(remembered), labelFor := if id.Some? then id.value else remembered)
  }

  /** Whatever ids were set in between, a null id restores the label the view
      had before the first call. */
  lemma {:induction false} LabelForRestores(r: ViewRenderer, ids: seq<int>)
    requires r.defaultLabelFor.None?
    ensures SetLabelFor(SetLabels(r, ids), None).labelFor == r.labelFor
    ensures SetLabels(r, ids).defaultLabelFor == (if ids == [] then None else Some(r.labelFor))
  {
    if ids != [] {
      LabelsKeepDefault(SetLabelFor(r, Some(ids[0])), ids[1..], r.labelFor);
    }
  }

  /** Setting the ids one after the other. */
  function SetLabels(r: ViewRenderer, ids: seq<int>): ViewRenderer
    decreases |ids|
  {
    if ids == [] then r else SetLabels(SetLabelFor(r, Some(ids[0])), ids[1..])
  }

  lemma {:induction false} LabelsKeepDefault(r: ViewRenderer, ids: seq<int>, original: int)
    requires r.defaultLabelFor == Some(original)
    ensures SetLabels(r, ids).defaultLabelFor == Some(original)
    decreases |ids|
  {
    if ids != [] {
      LabelsKeepDefault(SetLabelFor(r, Some(ids[0])), ids[1..], original);
    }
  }

  /** The spec `MeasureExactly` builds for one dimension: EXACTLY the pixel
      size, which a size that fits in thirty bits keeps intact. */
  function ExactSpec(pixels: real): (s: bv32)
    ensures 0 <= CastToInt(pixels) < 0x4000_0000 ==> GetSize(s) == Bits(CastToInt(pixels))
    ensures 0 <= CastToInt(pixels) < 0x4000_0000 ==> ModeOf(s) == Some(Exactly)
  {
    MakeMeasureSpec(Bits(CastToInt(pixels)), Exactly)
  }

  /** The static `MeasureExactly`: with a control and an element of positive
      size, the width and height specs handed to `Measure`; otherwise nothing.
      `width` and `height` are the element's `Width` and `Height` at the call
      (read only when there is an element), and `toPixels` is the context's
      density conversion. */
  function MeasureExactly(hasControl: bool, element: Option<VisualElement>, width: real, height: real,
                          toPixels: real -> real): (r: Option<(bv32, bv32)>)
    ensures r.None? <==> !hasControl || element.None? || width <= 0.0 || height <= 0.0
    ensures r.Some? ==> r.value.0 == ExactSpec(toPixels(width))
    ensures r.Some? ==> r.value.1 == ExactSpec(toPixels(height))
  {
    if !hasControl || element.None? then None
    else if width <= 0.0 || height <= 0.0 then None
    else Some((ExactSpec(toPixels(width)), ExactSpec(toPixels(height))))
  }

  /** `Dispose(disposing)`: the first call disposes the fragment and marks the
      renderer disposed; with `disposing` it also clears the listeners, drops the
      tracker and the visual element renderer, detaches from the element and
      unregisters this renderer if the platform maps the element to it. */
  function Dispose(r: ViewRenderer, disposing: bool): (o: ViewRenderer)
    ensures r.disposed ==> o == r
    ensures o.disposed
    ensures !r.disposed ==> o.fragment.None?
    ensures !r.disposed && r.fragment.Some? ==> o.disposedFragments == r.disposedFragments + [r.fragment.value.serial]
    ensures o.element == r.element && o.transactions == r.transactions && o.changed == r.changed
    ensures !r.disposed && disposing ==> !o.hasTracker && !o.hasVisualRenderer && o.listenersCleared
    ensures !r.disposed && disposing && r.element.Some? ==>
              o.subscribed == r.subscribed - multiset{r.element.value.id}
              && o.registeredFor == (if r.registeredFor == Some(r.element.value.id) then None else r.registeredFor)
    ensures !disposing ==> o.subscribed == r.subscribed && o.hasTracker == r.hasTracker && o.registeredFor == r.registeredFor
  {
    if r.disposed then r
    else
      var r1 := DropFragment(r).(disposed := true);
      if !disposing then r1
      else
        var r2 := r1.(listenersCleared := true, hasTracker := false, hasVisualRenderer := false);
        if r2.element.Some? then
          var id := r2.element.value.id;
          r2.(subscribed := r2.subscribed - multiset{id},
              registeredFor := if r2.registeredFor == Some(id) then None else r2.registeredFor)
        else r2
  }

  /** Disposing twice, with either flag, is disposing once; and it keeps the
      renderer sound, so the fragment is disposed exactly once. */
  lemma DisposeIdempotent(r: ViewRenderer, first: bool, second: bool)
    requires Sound(r)
    ensures Dispose(Dispose(r, first), second) == Dispose(r, first)
    ensures Sound(Dispose(r, first))
  {
    DropKeepsLedger(r);
  }
}
