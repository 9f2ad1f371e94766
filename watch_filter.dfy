/** The per-subscriber event filter of the file storage's watch set
    (pkg/apiserver/storage/file/watchset.go): the decisions isValid,
    handleAddedForFilteredList, handleDeletedForFilteredList and processEvent
    make about one raw event, as pure functions of the watch's configuration. */
module WatchFilter {
  import opened Common
  import opened Decimal
  import opened Objects

  const MinInt64: int := -0x8000_0000_0000_0000
  const MaxInt64: int := 0x7FFF_FFFF_FFFF_FFFF

  type uint64 = x: int | 0 <= x < 0x1_0000_0000_0000_0000

  datatype EventType = Added | Modified | Deleted

  datatype Event = Event(kind: EventType, obj: Obj)

  /** An event as broadcast to the nodes; oldObject is only set for modifications. */
  datatype EventWrapper = EventWrapper(ev: Event, oldObject: Option<Obj>)

  datatype WatchError =
    | BadResourceVersion(rv: string)   // strconv.Atoi refused the resource version
    | PredicateFailed(reason: string)  // the selection predicate returned an error
    | MissingOldObject                 // a Modified event reached a filtered-list handler without its old object

  /** A selection predicate: matches an object, or fails with a reason. */
  type Predicate = Obj -> Result<bool, string>

  /** What a watch node was created with: resume cursor, optional namespace, predicate. */
  datatype WatchConfig = WatchConfig(requestedRV: uint64, namespace: Option<string>, selector: Predicate)

  /** The two booleans of isValid: the event matches now, and it passed the
      resource-version and namespace checks. */
  datatype Validity = Validity(matches: bool, pastPositionalFilters: bool)

  /** Go's strconv.Atoi on a 64-bit platform: an optional sign, at least one
      decimal digit and nothing else, within the range of int64. */
  function Atoi(s: string): (r: Option<int>)
    ensures r.Some? ==> MinInt64 <= r.value <= MaxInt64
    ensures |s| > 0 && AllDigits(s) ==> r == (if DigitsValue(s) <= MaxInt64 then Some(DigitsValue(s)) else None)
    ensures |s| == 0 ==> r.None?
    // anything but a sign and digits is refused; a signed string reads as its signed value
    ensures r.Some? ==> (|s| > 0 &&
      var d := if s[0] == '-' || s[0] == '+' then s[1..] else s;
      |d| > 0 && AllDigits(d) && r.value == (if s[0] == '-' then -(DigitsValue(d) as int) else DigitsValue(d)))
    ensures |s| > 1 && (s[0] == '-' || s[0] == '+') && AllDigits(s[1..]) ==>
      var v: int := if s[0] == '-' then -(DigitsValue(s[1..]) as int) else DigitsValue(s[1..]);
      r == (if MinInt64 <= v <= MaxInt64 then Some(v) else None)
  {
    var signed := |s| > 0 && (s[0] == '-' || s[0] == '+');
    var digits := if signed then s[1..] else s;
    if |digits| == 0 || !AllDigits(digits) then None
    else
      var magnitude: int := DigitsValue(digits);
      var v: int := if signed && s[0] == '-' then -magnitude else magnitude;
      if MinInt64 <= v <= MaxInt64 then Some(v) else None
  }

  /** Every int64 written in decimal is read back by Atoi. */
  lemma AtoiOfDecimal(n: int)
    requires MinInt64 <= n <= MaxInt64
    ensures Atoi(IntToDecimal(n)) == Some(n)
  {
    var s := IntToDecimal(n);
    if n < 0 {
      var digits := NatToDecimal(-n);
      assert s == "-" + digits;
      assert s[1..] == digits;
      DigitsValueOfDecimal(-n);
      assert DigitsValue(digits) == -n;
    } else {
      DigitsValueOfDecimal(n);
      assert s[0] != '-' && s[0] != '+';
    }
  }

  /** Go's int(u) for a uint64 u: values of 2^63 and above wrap to negative. */
  function Int64Of(u: uint64): (i: int)
    ensures MinInt64 <= i <= MaxInt64
    ensures i >= 0 <==> u <= MaxInt64
    ensures i % 0x1_0000_0000_0000_0000 == u
  {
    if u <= MaxInt64 then u else u - 0x1_0000_0000_0000_0000
  }

  /** The object's resource version is numeric and strictly after the resume cursor. */
  predicate PassesCursor(c: WatchConfig, o: Obj) {
    var rv := Atoi(o.resourceVersion);
    rv.Some? && rv.value > Int64Of(c.requestedRV)
  }

  /** A namespaced watch only sees objects of its namespace. */
  predicate InScope(c: WatchConfig, o: Obj) {
    c.namespace.None? || c.namespace.value == o.namespace
  }

  /** Both positional filters (resume cursor and namespace) are passed. */
  predicate Positional(c: WatchConfig, o: Obj) {
    PassesCursor(c, o) && InScope(c, o)
  }

  /** isValid: parse the event's resource version, apply the cursor and
      namespace checks, then the predicate. */
  function IsValid(c: WatchConfig, e: EventWrapper): (r: Result<Validity, WatchError>)
    ensures r.Success? && r.value.matches ==> r.value.pastPositionalFilters
  {
    var o := e.ev.obj;
    match Atoi(o.resourceVersion)
    case None => Failure(BadResourceVersion(o.resourceVersion))
    case Some(eventRV) =>
      if eventRV <= Int64Of(c.requestedRV) then Success(Validity(false, false))
      else if c.namespace.Some? && c.namespace.value != o.namespace then Success(Validity(false, false))
      else
        match c.selector(o)
        case Failure(reason) => Failure(PredicateFailed(reason))
        case Success(valid) => Success(Validity(valid, true))
  }

  /** isValid, case by case: an unparseable resource version is an error, a stale
      or out-of-namespace event is dropped without one, and otherwise the predicate
      decides; the second boolean says the positional filters were passed. */
  lemma IsValidCases(c: WatchConfig, e: EventWrapper)
    ensures var r, rv := IsValid(c, e), e.ev.obj.resourceVersion;
      && (Atoi(rv).None? ==> r == Failure(BadResourceVersion(rv)))
      && (Atoi(rv).Some? && !Positional(c, e.ev.obj) ==> r == Success(Validity(false, false)))
    ensures var r, verdict := IsValid(c, e), c.selector(e.ev.obj);
      && (Positional(c, e.ev.obj) && verdict.Success? ==> r == Success(Validity(verdict.value, true)))
      && (Positional(c, e.ev.obj) && verdict.Failure? ==> r == Failure(PredicateFailed(verdict.error)))
    ensures IsValid(c, e).Success? && IsValid(c, e).value.pastPositionalFilters
      <==> Positional(c, e.ev.obj) && c.selector(e.ev.obj).Success?
  {
  }

  /** handleAddedForFilteredList, for a Modified event whose new object matches:
      an object that did not match before enters the view as Added. */
  function HandleAddedForFilteredList(c: WatchConfig, e: EventWrapper): (r: Result<Option<Event>, WatchError>)
    ensures e.oldObject.None? ==> r == Failure(MissingOldObject)
    ensures e.oldObject.Some? && c.selector(e.oldObject.value) == Success(false) ==>
      r == Success(Some(Event(Added, e.ev.obj)))
    ensures e.oldObject.Some? && c.selector(e.oldObject.value) == Success(true) ==> r == Success(None)
    ensures e.oldObject.Some? && c.selector(e.oldObject.value).Failure? ==>
      r == Failure(PredicateFailed(c.selector(e.oldObject.value).error))
  {
    match e.oldObject
    case None => Failure(MissingOldObject)
    case Some(prev) =>
      match c.selector(prev)
      case Failure(reason) => Failure(PredicateFailed(reason))
      case Success(ok) => if !ok then Success(Some(Event(Added, e.ev.obj))) else Success(None)
  }

  /** handleDeletedForFilteredList, for a Modified event whose new object does not
      match: an object that matched before leaves the view as Deleted, carrying the
      old object stamped with the new resource version. */
  function HandleDeletedForFilteredList(c: WatchConfig, e: EventWrapper): (r: Result<Option<Event>, WatchError>)
    ensures e.oldObject.None? ==> r == Failure(MissingOldObject)
    ensures e.oldObject.Some? && c.selector(e.oldObject.value) == Success(false) ==> r == Success(None)
    ensures e.oldObject.Some? && c.selector(e.oldObject.value) == Success(true) ==>
      r == Success(Some(Event(Deleted, e.oldObject.value.(resourceVersion := e.ev.obj.resourceVersion))))
    ensures e.oldObject.Some? && c.selector(e.oldObject.value).Failure? ==>
      r == Failure(PredicateFailed(c.selector(e.oldObject.value).error))
  {
    match e.oldObject
    case None => Failure(MissingOldObject)
    case Some(prev) =>
      match c.selector(prev)
      case Failure(reason) => Failure(PredicateFailed(reason))
      case Success(ok) =>
        if !ok then Success(None)
        else Success(Some(Event(Deleted, prev.(resourceVersion := e.ev.obj.resourceVersion))))
  }

  /** processEvent: at most one event is emitted for each raw event, or an error is
      reported. */
  function EventOutcome(c: WatchConfig, e: EventWrapper): (r: Result<Option<Event>, WatchError>)
    ensures r.Success? && r.value.Some? ==> IsValid(c, e).Success? && IsValid(c, e).value.pastPositionalFilters
    ensures e.ev.kind != Modified && r.Success? && r.value.Some? ==> r.value.value == e.ev
  {
    match IsValid(c, e)
    case Failure(err) => Failure(err)
    case Success(v) =>
      if v.matches then
        if e.ev.kind == Modified then
          match HandleAddedForFilteredList(c, e)
          case Failure(err) => Failure(err)
          case Success(Some(added)) => Success(Some(added))
          case Success(None) => Success(Some(e.ev))  // forward the original event
        else Success(Some(e.ev))
      else if v.pastPositionalFilters && e.ev.kind == Modified then
        HandleDeletedForFilteredList(c, e)
      else Success(None)
  }

  /** The outcome of processEvent, case by case: the positional filters, then the
      predicate on the new object, then (for Modified) on the old one. Whatever is
      emitted carries the raw event's resource version, which passed the resume
      cursor, and a Modified event never goes through without its old object. */
  lemma EventOutcomeCases(c: WatchConfig, e: EventWrapper)
    ensures var r := EventOutcome(c, e);
      r.Success? && r.value.Some? ==>
        Positional(c, e.ev.obj) && r.value.value.obj.resourceVersion == e.ev.obj.resourceVersion
    ensures e.ev.kind == Modified && e.oldObject.None? && Atoi(e.ev.obj.resourceVersion).Some? ==>
      EventOutcome(c, e).Failure? || EventOutcome(c, e) == Success(None)
    ensures var r := EventOutcome(c, e);
      && (Atoi(e.ev.obj.resourceVersion).None? ==> r == Failure(BadResourceVersion(e.ev.obj.resourceVersion)))
      && (Atoi(e.ev.obj.resourceVersion).Some? && !Positional(c, e.ev.obj) ==> r == Success(None))
      && (Positional(c, e.ev.obj) && c.selector(e.ev.obj).Failure? ==>
            r == Failure(PredicateFailed(c.selector(e.ev.obj).error)))
    // Added and Deleted events are forwarded unchanged exactly when they match
    ensures var r := EventOutcome(c, e);
      && (Positional(c, e.ev.obj) && e.ev.kind != Modified && c.selector(e.ev.obj) == Success(true) ==>
            r == Success(Some(e.ev)))
      && (Positional(c, e.ev.obj) && e.ev.kind != Modified && c.selector(e.ev.obj) == Success(false) ==>
            r == Success(None))
    // a Modified event needs its old object, matching or not
    ensures Positional(c, e.ev.obj) && e.ev.kind == Modified && c.selector(e.ev.obj).Success? && e.oldObject.None? ==>
      EventOutcome(c, e) == Failure(MissingOldObject)
    // membership transitions of a Modified event: (old matched, new matches) -> outcome
    ensures Positional(c, e.ev.obj) && e.ev.kind == Modified && e.oldObject.Some? ==>
      var r, now, before := EventOutcome(c, e), c.selector(e.ev.obj), c.selector(e.oldObject.value);
      && (now == Success(true) && before == Success(true) ==> r == Success(Some(e.ev)))
      && (now == Success(true) && before == Success(false) ==> r == Success(Some(Event(Added, e.ev.obj))))
      && (now == Success(false) && before == Success(true) ==>
            r == Success(Some(Event(Deleted, e.oldObject.value.(resourceVersion := e.ev.obj.resourceVersion)))))
      && (now == Success(false) && before == Success(false) ==> r == Success(None))
      && (now.Success? && before.Failure? ==> r == Failure(PredicateFailed(before.error)))
  {
    IsValidCases(c, e);
  }

  /** The events one raw event puts on the output queue: errors are logged and dropped. */
  function Emitted(c: WatchConfig, e: EventWrapper): (out: seq<Event>)
    ensures |out| <= 1
  {
    match EventOutcome(c, e)
    case Success(Some(x)) => [x]
    case _ => []
  }

  /** The output of processEvent applied to each raw event in turn. */
  function ProcessAll(c: WatchConfig, es: seq<EventWrapper>): seq<Event> {
    if es == [] then [] else Emitted(c, es[0]) + ProcessAll(c, es[1..])
  }

  /** Processing is sequential: the output of a concatenation is the concatenation
      of the outputs, so relative order is kept. */
  lemma {:induction false} ProcessAllAppend(c: WatchConfig, a: seq<EventWrapper>, b: seq<EventWrapper>)
    ensures ProcessAll(c, a + b) == ProcessAll(c, a) + ProcessAll(c, b)
  {
    if a == [] {
      assert a + b == b;
    } else {
      assert (a + b)[1..] == a[1..] + b;
      ProcessAllAppend(c, a[1..], b);
    }
  }

  /** One more raw event adds its own output at the end. */
  lemma ProcessAllSnoc(c: WatchConfig, es: seq<EventWrapper>, e: EventWrapper)
    ensures ProcessAll(c, es + [e]) == ProcessAll(c, es) + Emitted(c, e)
  {
    ProcessAllAppend(c, es, [e]);
    assert [e][1..] == [];
  }

  /** The step of a loop that has processed es[..i] after producing `before`:
      processing es[i] next yields the output of es[..i + 1]. */
  lemma ProcessAllExtend(c: WatchConfig, before: seq<Event>, es: seq<EventWrapper>, i: int)
    requires 0 <= i < |es|
    ensures before + ProcessAll(c, es[..i]) + Emitted(c, es[i]) == before + ProcessAll(c, es[..i + 1])
  {
    assert es[..i + 1] == es[..i] + [es[i]];
    ProcessAllSnoc(c, es[..i], es[i]);
  }

  /** The first raw event's output comes first. */
  lemma ProcessAllCons(c: WatchConfig, es: seq<EventWrapper>)
    requires |es| > 0
    ensures ProcessAll(c, es) == Emitted(c, es[0]) + ProcessAll(c, es[1..])
    ensures ProcessAll(c, [es[0]]) == Emitted(c, es[0])
  {
    assert [es[0]][1..] == [];
  }

  /** At most one output per raw event, and no output at or before the resume cursor. */
  lemma {:induction false} ProcessAllBounds(c: WatchConfig, es: seq<EventWrapper>)
    ensures |ProcessAll(c, es)| <= |es|
    ensures forall x | x in ProcessAll(c, es) :: PassesCursor(c, x.obj)
  {
    if es != [] {
      EventOutcomeCases(c, es[0]);
      ProcessAllBounds(c, es[1..]);
    }
  }
}
