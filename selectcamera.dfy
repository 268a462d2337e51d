/**
  The camera-select command: it caches the gamepad's roster, keeps its
  event handlers attached to that roster and to each camera in it, projects
  the roster as indexed options, writes the gamepad's selection on Execute,
  and requests a selection-changed broadcast for it.

  Event-handler plumbing is modelled by what the command has attached
  (a multiset, since .NET events add a handler once per `+=`), by a log of
  the notices it raises to local observers, and by a log of the broadcast
  envelopes it requests.
 */
module SelectCamera {
  import opened Wrappers
  import opened Collections
  import opened Devices
  import opened Messages
  import Decimal
  import WebSockets

  /** One selectable option: a label (None for a camera whose Name is null) and the value Execute takes for it. */
  datatype CommandValueOption = CommandValueOption(name: Option<string>, value: int)

  /** A notice raised to local observers: a property-changed or a collection-changed event. */
  datatype Notice =
    | PropertyChanged(propertyName: string)
    | CollectionChanged(change: CollectionChange<Camera>)

  /**
    The exceptions the command throws, by the argument the code passes. The
    out-of-range text goes to the one-string constructor of
    ArgumentOutOfRangeException, whose one argument is the parameter name.
   */
  datatype CommandError =
    | ArgumentOutOfRange(paramName: string)
    | ArgumentNull(paramName: string)

  const OutOfRangePrefix := "Value out of range for Camera ObservableCollection. Count is "
  const OutOfRangeMiddle := ", value was "

  /** The text Execute passes to the out-of-range exception. */
  function OutOfRangeText(count: nat, value: int): (r: string)
    ensures OutOfRangePrefix <= r
  {
    OutOfRangePrefix + Decimal.NatToDecimal(count) + OutOfRangeMiddle + Decimal.IntToDecimal(value)
  }

  /** The count an out-of-range text reports: the digits after its fixed opening. */
  function ReportedCount(text: string): Option<nat> {
    if OutOfRangePrefix <= text then
      var digits := Decimal.LeadingDigits(text[|OutOfRangePrefix|..]);
      if digits == [] then None else Some(Decimal.DigitsValue(digits))
    else None
  }

  /** The value an out-of-range text reports: the number after its last space. */
  function ReportedValue(text: string): Option<int> {
    Decimal.ParseInt(Decimal.AfterLastSpace(text))
  }

  /** The out-of-range text reports the option count right after its fixed opening. */
  lemma OutOfRangeTextReportsCount(count: nat, value: int)
    ensures ReportedCount(OutOfRangeText(count, value)) == Some(count)
  {
    var d := Decimal.NatToDecimal(count);
    var v := Decimal.IntToDecimal(value);
    assert OutOfRangeText(count, value)[|OutOfRangePrefix|..] == d + (OutOfRangeMiddle + v);
    Decimal.LeadingDigitsOf(d, OutOfRangeMiddle + v);
    Decimal.NatToDecimalRoundTrip(count);
  }

  /** The out-of-range text reports the rejected value as its last word. */
  lemma OutOfRangeTextReportsValue(count: nat, value: int)
    ensures ReportedValue(OutOfRangeText(count, value)) == Some(value)
  {
    var d := Decimal.NatToDecimal(count);
    var v := Decimal.IntToDecimal(value);
    assert forall i | 0 <= i < |v| :: v[i] != ' ' by {
      forall i | 0 <= i < |v| ensures v[i] != ' ' {
        if i > 0 && value < 0 {
          assert v[i] == v[1..][i - 1];
        }
      }
    }
    assert OutOfRangeText(count, value) == (OutOfRangePrefix + d + ", value was") + [' '] + v;
    Decimal.AfterLastSpaceOf(OutOfRangePrefix + d + ", value was", v);
    Decimal.IntToDecimalRoundTrip(value);
  }

  /** The indexed projection `Select((camera, i) => (camera.Name, i))`, numbering from `offset`. */
  function Project(cams: seq<Camera>, offset: nat): (r: seq<CommandValueOption>)
    reads set c | c in cams
    ensures |r| == |cams|
    ensures forall i :: 0 <= i < |r| ==> r[i] == CommandValueOption(cams[i].name, offset + i)
  {
    if cams == [] then []
    else [CommandValueOption(cams[0].name, offset)] + Project(cams[1..], offset + 1)
  }

  /** The name `SelectedCamera?.Name` gives: absent when no camera is selected or its Name is null. */
  function SelectedName(camera: Camera?): (r: Option<string>)
    reads camera
    ensures r.Some? <==> camera != null && camera.name.Some?
    ensures r.Some? ==> r.value == camera.name.value
  {
    if camera == null then None else camera.name
  }

  /**
    The broadcasts one NotifyClients call requests: none for an absent
    name, otherwise exactly one selection-changed envelope carrying it.
   */
  function BroadcastFor(name: Option<string>): (r: seq<WebSocketMessage>)
    ensures |r| <= 1
    ensures |r| == 1 <==> name.Some?
    ensures forall m :: m in r ==>
      m.msgType == "event" && m.action == "selectedCameraChanged" && m.payload == Some(CameraNamePayload(name.value))
  {
    if name.Some? then [SelectedCameraChanged(name.value)] else []
  }

  /**
    The selection after a collection-changed event: cleared when the event
    is not a Move and its old items contain the selected camera.
   */
  function SelectionAfter(e: CollectionChange<Camera>, selected: Camera?): (r: Camera?)
    ensures r == null || r == selected
  {
    if e.action != Move && e.oldItems.Some? && selected != null && selected in e.oldItems.value then null
    else selected
  }

  /**
    The rename handlers after a collection-changed event: detached from each
    old item when the old starting index is given, attached to each new item
    when the new starting index is given.
   */
  function DeviceSubsAfter<T>(e: CollectionChange<T>, subs: multiset<T>): (r: multiset<T>)
    requires e.WellFormed()
    ensures e.oldStartingIndex < 0 ==> subs <= r
    ensures e.newStartingIndex >= 0 ==> multiset(e.newItems.value) <= r
  {
    var detached := if e.oldStartingIndex >= 0 then subs - multiset(e.oldItems.value) else subs;
    if e.newStartingIndex >= 0 then detached + multiset(e.newItems.value) else detached
  }

  /** The items of a collection reference, none for null. */
  function ItemsOf(c: CameraCollection?): seq<Camera>
    reads c
  {
    if c == null then [] else c.items
  }

  /**
    A Move never clears the selection, and neither does an event without
    old items (a Reset or an Add); a non-Move removing the selected camera does.
   */
  lemma SelectionAfterCases(e: CollectionChange<Camera>, selected: Camera?)
    ensures e.action == Move ==> SelectionAfter(e, selected) == selected
    ensures e.oldItems.None? ==> SelectionAfter(e, selected) == selected
    ensures e.action != Move && e.oldItems.Some? && selected != null && selected in e.oldItems.value ==>
      SelectionAfter(e, selected) == null
    ensures selected != null && SelectionAfter(e, selected) == selected ==>
      e.action == Move || e.oldItems.None? || selected !in e.oldItems.value
  {
  }

  /**
    A camera outside the slice `[k, k + n)` of `before` is still in the
    roster when that slice is replaced by `mid`.
   */
  lemma OutsideSliceStays(before: seq<Camera>, k: nat, n: nat, mid: seq<Camera>, after: seq<Camera>, c: Camera)
    requires k + n <= |before| && after == before[..k] + mid + before[k + n..]
    requires c in before && c !in before[k..k + n]
    ensures c in after
  {
    assert before == before[..k] + before[k..k + n] + before[k + n..];
    assert c in before[..k] || c in before[k + n..];
  }

  /** A Move reorders the roster: every camera of it is still in it afterwards. */
  lemma MovedCameraStays(before: seq<Camera>, k: nat, j: nat, after: seq<Camera>, c: Camera)
    requires k < |before| && j < |before|
    requires after == Insert(before[..k] + before[k + 1..], j, before[k])
    requires c in before
    ensures c in after
  {
    assert before == before[..k] + [before[k]] + before[k + 1..];
    assert multiset(before) == multiset(before[..k] + before[k + 1..]) + multiset{before[k]};
    assert c in multiset(after);
  }

  /**
    Any change other than Reset keeps the selection inside the roster: a
    selected camera that was in the roster before is, after the event, either
    still in it or no longer selected.
   */
  lemma SelectionStaysInRoster(e: CollectionChange<Camera>, before: seq<Camera>, after: seq<Camera>, selected: Camera?)
    requires Describes(e, before, after) && e.action != Reset
    requires selected != null ==> selected in before
    ensures SelectionAfter(e, selected) != null ==> SelectionAfter(e, selected) in after
  {
    var s := SelectionAfter(e, selected);
    if s != null {
      match e.action
      case Add => AddKeepsCamera(e, before, after, s);
      case Remove => RemoveKeepsOthers(e, before, after, s);
      case Replace => ReplaceKeepsOthers(e, before, after, s);
      case Move => MoveKeepsCamera(e, before, after, s);
    }
  }

  /** An Add keeps every camera of the roster. */
  lemma AddKeepsCamera(e: CollectionChange<Camera>, before: seq<Camera>, after: seq<Camera>, c: Camera)
    requires Describes(e, before, after) && e.action == Add && c in before
    ensures c in after
  {
    OutsideSliceStays(before, e.newStartingIndex, 0, e.newItems.value, after, c);
  }

  /** A Remove keeps every camera it does not remove. */
  lemma RemoveKeepsOthers(e: CollectionChange<Camera>, before: seq<Camera>, after: seq<Camera>, c: Camera)
    requires Describes(e, before, after) && e.action == Remove && c in before && c !in e.oldItems.value
    ensures c in after
  {
    OutsideSliceStays(before, e.oldStartingIndex, |e.oldItems.value|, [], after, c);
  }

  /** A Replace keeps every camera it does not replace. */
  lemma ReplaceKeepsOthers(e: CollectionChange<Camera>, before: seq<Camera>, after: seq<Camera>, c: Camera)
    requires Describes(e, before, after) && e.action == Replace && c in before && c !in e.oldItems.value
    ensures c in after
  {
    OutsideSliceStays(before, e.oldStartingIndex, |e.oldItems.value|, e.newItems.value, after, c);
  }

  /** A Move keeps every camera of the roster. */
  lemma MoveKeepsCamera(e: CollectionChange<Camera>, before: seq<Camera>, after: seq<Camera>, c: Camera)
    requires Describes(e, before, after) && e.action == Move && c in before
    ensures c in after
  {
    MovedCameraStays(before, e.oldStartingIndex, e.newStartingIndex, after, c);
  }

  /**
    Clear raises a Reset, which carries no old items: the selection stays
    although the roster is now empty.
   */
  lemma ResetKeepsStaleSelection(e: CollectionChange<Camera>, before: seq<Camera>, after: seq<Camera>, selected: Camera)
    requires Describes(e, before, after) && e.action == Reset
    requires selected in before
    ensures SelectionAfter(e, selected) == selected && selected !in after
  {
  }

  /** The multiset of three concatenated pieces. */
  lemma MultisetOfThree<T>(p: seq<T>, m: seq<T>, q: seq<T>)
    ensures multiset(p + m + q) == multiset(p) + multiset(m) + multiset(q)
  {
    assert p + m + q == p + (m + q);
  }

  /** A roster split at `k` and at `k + n`. */
  lemma SplitAt<T>(s: seq<T>, k: nat, n: nat)
    requires k + n <= |s|
    ensures s == s[..k] + s[k..k + n] + s[k + n..]
    ensures multiset(s) == multiset(s[..k]) + multiset(s[k..k + n]) + multiset(s[k + n..])
  {
    assert s == s[..k] + s[k..k + n] + s[k + n..];
    MultisetOfThree(s[..k], s[k..k + n], s[k + n..]);
  }

  /**
    Replacing the slice `[k, k + n)` of a roster by `mid` takes that slice's
    cameras out of its multiset and puts those of `mid` in.
   */
  lemma SliceReplaced<T>(before: seq<T>, k: nat, n: nat, mid: seq<T>, after: seq<T>)
    requires k + n <= |before| && after == before[..k] + mid + before[k + n..]
    ensures multiset(before) - multiset(before[k..k + n]) + multiset(mid) == multiset(after)
  {
    SplitAt(before, k, n);
    MultisetOfThree(before[..k], mid, before[k + n..]);
    var a, m, b := multiset(before[..k]), multiset(before[k..k + n]), multiset(before[k + n..]);
    assert a + m + b - m == a + b;
  }

  /** An Add attaches one rename handler per inserted camera. */
  lemma AddFollows<T>(e: CollectionChange<T>, before: seq<T>, after: seq<T>)
    requires Describes(e, before, after) && e.action == Add && e.WellFormed()
    ensures DeviceSubsAfter(e, multiset(before)) == multiset(after)
  {
    var k := e.newStartingIndex;
    assert before[k..k + 0] == [];
    assert DeviceSubsAfter(e, multiset(before)) == multiset(before) + multiset(e.newItems.value);
    SliceReplaced(before, k, 0, e.newItems.value, after);
  }

  /** A Remove detaches one rename handler per removed camera. */
  lemma RemoveFollows<T>(e: CollectionChange<T>, before: seq<T>, after: seq<T>)
    requires Describes(e, before, after) && e.action == Remove && e.WellFormed()
    ensures DeviceSubsAfter(e, multiset(before)) == multiset(after)
  {
    var k, n := e.oldStartingIndex, |e.oldItems.value|;
    assert before[k..k + n] == e.oldItems.value;
    assert DeviceSubsAfter(e, multiset(before)) == multiset(before) - multiset(e.oldItems.value);
    assert after == before[..k] + [] + before[k + n..];
    SliceReplaced(before, k, n, [], after);
  }

  /** A Replace detaches from the replaced cameras and attaches to their replacements. */
  lemma ReplaceFollows<T>(e: CollectionChange<T>, before: seq<T>, after: seq<T>)
    requires Describes(e, before, after) && e.action == Replace && e.WellFormed()
    ensures DeviceSubsAfter(e, multiset(before)) == multiset(after)
  {
    var k, n := e.oldStartingIndex, |e.oldItems.value|;
    assert before[k..k + n] == e.oldItems.value;
    assert DeviceSubsAfter(e, multiset(before)) == multiset(before) - multiset(e.oldItems.value) + multiset(e.newItems.value);
    SliceReplaced(before, k, n, e.newItems.value, after);
  }

  /** A Move detaches from the moved camera and attaches to it again. */
  lemma MoveFollows<T>(e: CollectionChange<T>, before: seq<T>, after: seq<T>)
    requires Describes(e, before, after) && e.action == Move && e.WellFormed()
    ensures DeviceSubsAfter(e, multiset(before)) == multiset(after)
  {
    var k, x := e.oldStartingIndex, e.oldItems.value[0];
    assert e.oldItems.value == e.newItems.value == [x];
    MoveKeepsMultiset(before, k, e.newStartingIndex);
  }

  /** Moving the item at `k` to position `j` keeps the multiset, also when read as one removal and one insertion. */
  lemma MoveKeepsMultiset<T>(s: seq<T>, k: nat, j: nat)
    requires k < |s| && j < |s|
    ensures multiset(s) - multiset([s[k]]) + multiset([s[k]]) == multiset(Insert(s[..k] + s[k + 1..], j, s[k]))
  {
    var rest := s[..k] + s[k + 1..];
    assert s == s[..k] + [s[k]] + s[k + 1..];
    assert multiset(s) == multiset(rest) + multiset{s[k]};
  }

  /**
    Clear raises a Reset, which detaches nothing: the cameras of a non-empty
    roster keep their rename handlers after leaving it.
   */
  lemma ResetLeavesSubscriptions<T>(e: CollectionChange<T>, before: seq<T>, after: seq<T>)
    requires Describes(e, before, after) && e.action == Reset && e.WellFormed() && before != []
    ensures DeviceSubsAfter(e, multiset(before)) == multiset(before) != multiset(after)
  {
    assert before[0] in multiset(before);
  }

  /**
    While the rename handlers match the roster one for one, every change
    other than Reset keeps them matched.
   */
  lemma SubscriptionsFollowRoster<T>(e: CollectionChange<T>, before: seq<T>, after: seq<T>)
    requires Describes(e, before, after) && e.action != Reset && e.WellFormed()
    ensures DeviceSubsAfter(e, multiset(before)) == multiset(after)
  {
    match e.action
    case Add => AddFollows(e, before, after);
    case Remove => RemoveFollows(e, before, after);
    case Replace => ReplaceFollows(e, before, after);
    case Move => MoveFollows(e, before, after);
  }

  /**
    The handlers the command has attached: its property-changed handler on
    the gamepad, its collection-changed handler on each collection and its
    rename handler on each camera, counting one per `+=` not yet undone.
   */
  datatype Handlers = Handlers(
    onGamepad: bool,
    onCollections: multiset<CameraCollection>,
    onCameras: multiset<Camera>)

  const NoHandlers := Handlers(false, multiset{}, multiset{})

  /** The handlers sit on `roster` once and on each of its cameras once per occurrence in `items`, and nowhere else. */
  predicate AttachedTo(h: Handlers, roster: CameraCollection, items: seq<Camera>) {
    h.onCollections == multiset{roster} && h.onCameras == multiset(items)
  }

  /** The rename handlers after a roster replacement: off every old camera, onto every new one. */
  function Rewired<T>(subs: multiset<T>, oldItems: seq<T>, newItems: seq<T>): (r: multiset<T>)
    ensures forall c :: c in newItems ==> c in r
  {
    subs - multiset(oldItems) + multiset(newItems)
  }

  /**
    The handlers after the roster setter replaces `current` (null before the
    first assignment) by `value`: both handlers leave the current roster and
    its cameras and join the new roster and its cameras.
   */
  function Moved(h: Handlers, current: CameraCollection?, currentItems: seq<Camera>,
                 value: CameraCollection, valueItems: seq<Camera>): (r: Handlers)
    ensures r.onGamepad == h.onGamepad
    ensures value in r.onCollections
  {
    h.(onCollections := (if current == null then h.onCollections else h.onCollections - multiset{current}) + multiset{value},
       onCameras := Rewired(h.onCameras, currentItems, valueItems))
  }

  /** The handlers after a collection-changed event: the rename handlers move as DeviceSubsAfter says. */
  function AfterChange(h: Handlers, e: CollectionChange<Camera>): (r: Handlers)
    requires e.WellFormed()
    ensures r.onGamepad == h.onGamepad && r.onCollections == h.onCollections
  {
    h.(onCameras := DeviceSubsAfter(e, h.onCameras))
  }

  /**
    Replacing a roster whose cameras carried exactly one rename handler per
    occurrence leaves exactly one per occurrence in the new roster: no camera
    of the old roster keeps one unless it is in the new roster.
   */
  lemma RewiredFollowsRoster<T>(oldItems: seq<T>, newItems: seq<T>, c: T)
    ensures Rewired(multiset(oldItems), oldItems, newItems) == multiset(newItems)
    ensures c in oldItems && c !in newItems ==> Rewired(multiset(oldItems), oldItems, newItems)[c] == 0
  {
    assert multiset(oldItems) - multiset(oldItems) == multiset{};
  }

  /**
    The setter leaves the handlers attached to the new roster alone, whether
    it replaces no roster (nothing attached yet) or one they were attached to;
    the gamepad handler is not touched.
   */
  lemma MovedAttachesToValue(h: Handlers, current: CameraCollection?, currentItems: seq<Camera>,
                             value: CameraCollection, valueItems: seq<Camera>)
    requires current == null ==> h.onCollections == multiset{} && h.onCameras == multiset{} && currentItems == []
    requires current != null ==> AttachedTo(h, current, currentItems)
    ensures AttachedTo(Moved(h, current, currentItems, value, valueItems), value, valueItems)
    ensures Moved(h, current, currentItems, value, valueItems).onGamepad == h.onGamepad
  {
    RewiredFollowsRoster(currentItems, valueItems, value);
    if current != null {
      assert multiset{current} - multiset{current} == multiset{};
    }
  }

  /**
    A camera dropped from the roster by the setter loses its rename handler,
    and the collection replaced loses its collection handler (unless the same
    collection is assigned again).
   */
  lemma MovedDetachesDropped(h: Handlers, current: CameraCollection, currentItems: seq<Camera>,
                             value: CameraCollection, valueItems: seq<Camera>, c: Camera)
    requires AttachedTo(h, current, currentItems)
    ensures c in currentItems && c !in valueItems ==> Moved(h, current, currentItems, value, valueItems).onCameras[c] == 0
    ensures current != value ==> Moved(h, current, currentItems, value, valueItems).onCollections[current] == 0
  {
    RewiredFollowsRoster(currentItems, valueItems, c);
  }

  /**
    While the handlers match the roster, any change other than Reset that
    the roster reports keeps them matched to the changed roster.
   */
  lemma AfterChangeKeepsAttached(h: Handlers, roster: CameraCollection, e: CollectionChange<Camera>,
                                 before: seq<Camera>, after: seq<Camera>)
    requires AttachedTo(h, roster, before) && Describes(e, before, after) && e.action != Reset
    ensures e.WellFormed() && AttachedTo(AfterChange(h, e), roster, after)
  {
    DescribedIsWellFormed(e, before, after);
    SubscriptionsFollowRoster(e, before, after);
  }

  /**
    Clear breaks the match: the rename handlers stay on the cameras of a
    non-empty roster that is now empty.
   */
  lemma ResetBreaksAttachment(h: Handlers, roster: CameraCollection, e: CollectionChange<Camera>,
                              before: seq<Camera>, after: seq<Camera>)
    requires AttachedTo(h, roster, before) && Describes(e, before, after) && e.action == Reset && before != []
    ensures e.WellFormed() && AfterChange(h, e) == h && !AttachedTo(AfterChange(h, e), roster, after)
  {
    DescribedIsWellFormed(e, before, after);
    ResetLeavesSubscriptions(e, before, after);
  }

  /** The `foreach` that attaches the rename handler to each camera of `items`, once per occurrence. */
  method AttachHandlers<T>(subs: multiset<T>, items: seq<T>) returns (r: multiset<T>)
    ensures r == subs + multiset(items)
  {
    r := subs;
    var i := 0;
    while i < |items|
      invariant 0 <= i <= |items|
      invariant r == subs + multiset(items[..i])
    {
      assert items[..i + 1] == items[..i] + [items[i]];
      r := r + multiset{items[i]};
      i := i + 1;
    }
    assert items[..i] == items;
  }

  /** The `foreach` that detaches the rename handler from each camera of `items`, once per occurrence. */
  method DetachHandlers<T>(subs: multiset<T>, items: seq<T>) returns (r: multiset<T>)
    ensures r == subs - multiset(items)
  {
    r := subs;
    var i := 0;
    while i < |items|
      invariant 0 <= i <= |items|
      invariant r == subs - multiset(items[..i])
    {
      assert items[..i + 1] == items[..i] + [items[i]];
      r := r - multiset{items[i]};
      i := i + 1;
    }
    assert items[..i] == items;
  }

  /**
    The handler moves of the roster setter: `-=` on the current roster and
    each of its cameras when there is one, then `+=` on the new roster and
    each of its cameras.
   */
  method Rewire(h: Handlers, current: CameraCollection?, currentItems: seq<Camera>,
                value: CameraCollection, valueItems: seq<Camera>) returns (r: Handlers)
    requires current == null ==> currentItems == []
    ensures r == Moved(h, current, currentItems, value, valueItems)
  {
    var collections, devices := h.onCollections, h.onCameras;
    if current != null {
      collections := collections - multiset{current};
      devices := DetachHandlers(devices, currentItems);
    } else {
      assert devices - multiset(currentItems) == devices;
    }
    collections := collections + multiset{value};
    devices := AttachHandlers(devices, valueItems);
    r := h.(onCollections := collections, onCameras := devices);
  }

  /**
    The handler moves of the collection-changed handler: `-=` on each old
    item when the old starting index is given, then `+=` on each new item
    when the new starting index is given.
   */
  method ApplyChange(h: Handlers, e: CollectionChange<Camera>) returns (r: Handlers)
    requires e.WellFormed()
    ensures r == AfterChange(h, e)
  {
    var devices := h.onCameras;
    if e.oldStartingIndex >= 0 {
      devices := DetachHandlers(devices, e.oldItems.value);
    }
    if e.newStartingIndex >= 0 {
      devices := AttachHandlers(devices, e.newItems.value);
    }
    r := h.(onCameras := devices);
  }

  /** `gamepad.Cameras ?? new ObservableCollection<ViscaDeviceBase>()`: the gamepad's roster, or a fresh empty one. */
  method RosterOf(gamepad: Gamepad) returns (roster: CameraCollection)
    ensures gamepad.cameras != null ==> roster == gamepad.cameras
    ensures gamepad.cameras == null ==> fresh(roster) && roster.items == []
  {
    if gamepad.cameras != null {
      roster := gamepad.cameras;
    } else {
      roster := new CameraCollection([]);
    }
  }

  class SelectCameraCommand {
    const gamepad: Gamepad
    const handler: WebSockets.WebSocketHandler
    /** The cached roster; null only before the constructor assigns it. */
    var cameras: CameraCollection?
    /** The handlers this command has attached. */
    var handlers: Handlers
    /** The notices raised to local observers, in order. */
    var notices: seq<Notice>
    /** The selection-changed envelopes requested for broadcast, in order. */
    var broadcasts: seq<WebSocketMessage>

    const CommandName: string := "Select camera"
    const AxisParameterName: string := "Camera"
    const ButtonParameterName: string := "Camera"

    predicate Valid()
      reads this
    {
      cameras != null
    }

    /** The handlers sit on the gamepad, on the cached roster and on each camera occurrence in it, and nowhere else. */
    predicate Synced()
      reads this, cameras
    {
      cameras != null && handlers.onGamepad && AttachedTo(handlers, cameras, cameras.items)
    }

    /**
      Caches the gamepad's roster (a fresh empty one when it has none),
      attaches the handlers, and requests one broadcast for the camera the
      gamepad already has selected, none when it has none.
     */
    constructor (gamepad: Gamepad, handler: WebSockets.WebSocketHandler)
      ensures Valid() && Synced()
      ensures this.gamepad == gamepad && this.handler == handler
      ensures gamepad.cameras != null ==> cameras == gamepad.cameras
      ensures gamepad.cameras == null ==> fresh(cameras) && cameras.items == []
      ensures notices == [PropertyChanged("Cameras")]
      ensures broadcasts == BroadcastFor(SelectedName(gamepad.selectedCamera))
    {
      this.gamepad := gamepad;
      this.handler := handler;
      cameras := null;
      handlers := NoHandlers;
      notices := [];
      broadcasts := [];
      new;
      var roster := RosterOf(gamepad);
      ghost var items := roster.items;
      var outcome := SetCameras(roster);
      assert [] + [PropertyChanged("Cameras")] == [PropertyChanged("Cameras")];
      assert broadcasts == [] && notices == [PropertyChanged("Cameras")] && cameras == roster && roster.items == items;
      assert handlers == Moved(NoHandlers, null, [], roster, items);
      MovedAttachesToValue(NoHandlers, null, [], roster, items);
      handlers := handlers.(onGamepad := true);
      assert AttachedTo(handlers, roster, items);
      var name := SelectedName(gamepad.selectedCamera);
      NotifyClients(name);
      assert [] + BroadcastFor(name) == BroadcastFor(name);
      assert cameras == roster && roster.items == items && handlers.onGamepad && AttachedTo(handlers, roster, items);
    }

    /** Requests one selection-changed broadcast for a present name; an absent name requests none. */
    method NotifyClients(cameraName: Option<string>)
      modifies this`broadcasts
      ensures broadcasts == old(broadcasts) + BroadcastFor(cameraName)
      ensures cameras == old(cameras) && handlers == old(handlers) && notices == old(notices)
      ensures SelectedName(gamepad.selectedCamera) == old(SelectedName(gamepad.selectedCamera))
    {
      if cameraName.Some? {
        broadcasts := broadcasts + [SelectedCameraChanged(cameraName.value)];
      }
    }

    /**
      The roster setter: a null roster is rejected before anything changes;
      otherwise both handlers move from the old roster to the new one and a
      "Cameras" notice is raised.
     */
    method SetCameras(value: CameraCollection?) returns (r: Outcome<CommandError>)
      modifies this`cameras, this`handlers, this`notices
      ensures value == null ==> r == Fail(ArgumentNull("value")) && unchanged(this)
      ensures value != null ==>
        && r == Pass && cameras == value
        && handlers == Moved(old(handlers), old(cameras), old(ItemsOf(cameras)), value, value.items)
        && notices == old(notices) + [PropertyChanged("Cameras")]
    {
      if value == null {
        return Fail(ArgumentNull("value"));
      }
      var moved := Rewire(handlers, cameras, ItemsOf(cameras), value, value.items);
      cameras, handlers, notices := value, moved, notices + [PropertyChanged("Cameras")];
      r := Pass;
    }

    /**
      The gamepad's property-changed handler: a "Cameras" change re-reads the
      gamepad's roster (a fresh empty one for null) and assigns it through the
      setter; every other property, the selected camera included, is ignored.
     */
    method GamepadPropertyChanged(propertyName: Option<string>)
      requires Valid()
      modifies this`cameras, this`handlers, this`notices
      ensures Valid()
      ensures old(Synced()) ==> Synced()
      ensures propertyName != Some("Cameras") ==> unchanged(this)
      ensures propertyName == Some("Cameras") ==>
        && (gamepad.cameras != null ==> cameras == gamepad.cameras)
        && (gamepad.cameras == null ==> fresh(cameras) && cameras.items == [])
        && handlers == Moved(old(handlers), old(cameras), old(cameras.items), cameras, cameras.items)
        && notices == old(notices) + [PropertyChanged("Cameras")]
    {
      if propertyName == Some("Cameras") {
        var roster := RosterOf(gamepad);
        ghost var before := handlers;
        var outcome := SetCameras(roster);
        if old(Synced()) {
          MovedAttachesToValue(before, old(cameras), old(cameras.items), roster, roster.items);
        }
      }
    }

    /**
      The roster's collection-changed handler: clears a selection the event
      removed (not on Move), moves rename handlers off the old items and onto
      the new ones, and forwards the event unchanged.
     */
    method OnCamerasChanged(e: CollectionChange<Camera>)
      requires e.WellFormed()
      modifies this`handlers, this`notices, gamepad`selectedCamera
      ensures gamepad.selectedCamera == SelectionAfter(e, old(gamepad.selectedCamera))
      ensures handlers == AfterChange(old(handlers), e)
      ensures notices == old(notices) + [CollectionChanged(e)]
    {
      if e.action != Move && e.oldItems.Some? && gamepad.selectedCamera != null
         && gamepad.selectedCamera in e.oldItems.value {
        gamepad.selectedCamera := null;
      }
      var changed := ApplyChange(handlers, e);
      handlers, notices := changed, notices + [CollectionChanged(e)];
    }

    /** A camera's property-changed handler: a "Name" change raises one "Options" notice, anything else nothing. */
    method OnDeviceChange(propertyName: Option<string>)
      modifies this`notices
      ensures notices == old(notices) + (if propertyName == Some("Name") then [PropertyChanged("Options")] else [])
    {
      if propertyName == Some("Name") {
        notices := notices + [PropertyChanged("Options")];
      }
    }

    /** The options: one per roster position, labelled with that camera's current name. */
    function Options(): (r: seq<CommandValueOption>)
      requires Valid()
      reads this, cameras, set c | c in cameras.items
      ensures |r| == |cameras.items|
      ensures forall i :: 0 <= i < |r| ==> r[i] == CommandValueOption(cameras.items[i].name, i)
    {
      Project(cameras.items, 0)
    }

    /**
      Selects the camera at roster index `value` and requests a broadcast of
      its name on every call (none when its Name is null); an index outside
      the roster throws the out-of-range error and changes nothing.
     */
    method Execute(value: int) returns (r: Outcome<CommandError>)
      requires Valid()
      modifies this`broadcasts, gamepad`selectedCamera
      ensures r.Pass? <==> 0 <= value < |cameras.items|
      ensures r.Pass? ==>
        && gamepad.selectedCamera == cameras.items[value]
        && Options()[value] == CommandValueOption(gamepad.selectedCamera.name, value)
        && broadcasts == old(broadcasts) + BroadcastFor(cameras.items[value].name)
      ensures r.Fail? ==>
        && r.error == ArgumentOutOfRange(OutOfRangeText(|cameras.items|, value))
        && gamepad.selectedCamera == old(gamepad.selectedCamera)
        && broadcasts == old(broadcasts)
    {
      if 0 <= value < |cameras.items| {
        var camera := cameras.items[value];
        gamepad.selectedCamera := camera;
        NotifyClients(camera.name);
        r := Pass;
      } else {
        r := Fail(ArgumentOutOfRange(OutOfRangeText(|cameras.items|, value)));
      }
    }
  }
}
