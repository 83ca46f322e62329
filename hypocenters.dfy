/** The hypocenter map layer: the cache of displayed and imported seismic
    events, the marker styling rules, and the hover state driven by pointer
    moves and clicks. */
module Hypocenters {
  import opened JavaLang

  // Age thresholds in milliseconds.
  const OneHour: int := 60 * 60 * 1000
  const OneDay: int := OneHour * 24
  const OneWeek: int := OneDay * 7

  /** Marker diameters in pixels, indexed by the whole part of the magnitude. */
  const MarkerSizes: seq<int> := [5, 7, 9, 11, 13, 17, 21, 25, 29, 33, 37]

  /** The diameter of a marker whose event has no preferred magnitude. */
  const DefaultDiameter: int := 5

  /** A preferred origin: position in degrees, depth in metres, time in epoch milliseconds. */
  datatype Origin = Origin(longitude: Double, latitude: Double, depth: Double, time: int)

  /** A seismic event.  Events are objects: the hover state holds one by
      reference and compares it with `==`, so two events with equal fields
      are still distinct. */
  class Event {
    const publicId: string
    const preferredOrigin: Option<Origin>
    const preferredMagnitude: Option<Double>

    constructor (publicId: string, preferredOrigin: Option<Origin>, preferredMagnitude: Option<Double>)
      ensures this.publicId == publicId
      ensures this.preferredOrigin == preferredOrigin
      ensures this.preferredMagnitude == preferredMagnitude
    {
      this.publicId := publicId;
      this.preferredOrigin := preferredOrigin;
      this.preferredMagnitude := preferredMagnitude;
    }
  }

  // ---------------------------------------------------------------------
  // Marker size

  /** getMarkerSize as written: the whole part of the magnitude, at least 0,
      clamped to |MarkerSizes|, which is one past the last index, so a
      magnitude of 11 or more indexes outside the table. */
  function MarkerSize(mag: Double): (r: Result<int>)
    ensures r.Err? <==> IntCast(mag) >= |MarkerSizes|
    ensures r.Ok? ==> r.value in MarkerSizes
  {
    var markerMag := if IntCast(mag) > 0 then IntCast(mag) else 0;
    var clamped := if markerMag < |MarkerSizes| then markerMag else |MarkerSizes|;
    if clamped < |MarkerSizes| then Ok(MarkerSizes[clamped]) else Err(ArrayIndexOutOfBounds)
  }

  /** The diameter the layer uses for an event's marker. */
  function MarkerDiameter(mag: Option<Double>): (r: Result<int>)
    ensures mag.None? ==> r == Ok(DefaultDiameter)
    ensures r.Ok? ==> DefaultDiameter <= r.value <= MarkerSizes[|MarkerSizes| - 1]
  {
    match mag
    case None => Ok(DefaultDiameter)
    case Some(m) => MarkerSize(m)
  }

  /** The diameter as a function of a finite magnitude, band by band. */
  lemma MarkerSizeByMagnitude(m: real)
    ensures m < 0.0 ==> MarkerSize(Finite(m)) == Ok(5)
    ensures 0.0 <= m < 11.0 ==> MarkerSize(Finite(m)) == Ok(MarkerSizes[m.Floor])
    ensures m >= 11.0 ==> MarkerSize(Finite(m)) == Err(ArrayIndexOutOfBounds)
  {
    if 0.0 <= m < 11.0 {
      assert IntCast(Finite(m)) == m.Floor;
    }
  }

  /** Missing, NaN and negative magnitudes all give the smallest marker;
      an infinite magnitude is out of bounds. */
  lemma MarkerSizeSpecialValues()
    ensures MarkerDiameter(None) == Ok(5)
    ensures MarkerSize(NaN) == Ok(5)
    ensures MarkerSize(NegativeInfinity) == Ok(5)
    ensures MarkerSize(PositiveInfinity) == Err(ArrayIndexOutOfBounds)
  {
  }

  /** The table of diameters is increasing. */
  lemma MarkerSizesIncreasing(i: int, j: int)
    requires 0 <= i <= j < |MarkerSizes|
    ensures MarkerSizes[i] <= MarkerSizes[j]
  {
  }

  /** The diameter never decreases with the magnitude, and once the lookup
      fails it fails for every larger magnitude. */
  lemma MarkerSizeMonotonic(m1: real, m2: real)
    requires m1 <= m2
    ensures MarkerSize(Finite(m2)).Ok? ==> MarkerSize(Finite(m1)).Ok?
    ensures MarkerSize(Finite(m1)).Ok? && MarkerSize(Finite(m2)).Ok? ==>
              MarkerSize(Finite(m1)).value <= MarkerSize(Finite(m2)).value
  {
    var n1, n2 := IntCast(Finite(m1)), IntCast(Finite(m2));
    assert n1 <= n2 by {
      if m1 >= 0.0 {
        assert m1.Floor <= m2.Floor;
      }
    }
    var i1 := if n1 > 0 then n1 else 0;
    var i2 := if n2 > 0 then n2 else 0;
    if i2 < |MarkerSizes| {
      MarkerSizesIncreasing(i1, i2);
    }
  }

  // ---------------------------------------------------------------------
  // Marker colour

  datatype Color = Orange | Red | Yellow | White | Green | Blue | Purple

  /** How the map panel colours events.  Any setting other than Depth colours by age. */
  datatype ColorSetting = Depth | Age

  /** The colour of an event that is not hovered, in depth mode, from its
      depth in metres: every depth lands in exactly one band, the bands
      being NaN, below 0 km, then [0,5), [5,13), [13,20), [20,40) and from
      40 km on. */
  function DepthColor(depthMetres: Double): (r: Color)
    ensures r == White <==> depthMetres.NaN?
    ensures r == Red <==> depthMetres.NegativeInfinity? || (depthMetres.Finite? && depthMetres.value < 0.0)
    ensures r == Orange <==> depthMetres.Finite? && 0.0 <= depthMetres.value < 5000.0
    ensures r == Yellow <==> depthMetres.Finite? && 5000.0 <= depthMetres.value < 13000.0
    ensures r == Green <==> depthMetres.Finite? && 13000.0 <= depthMetres.value < 20000.0
    ensures r == Blue <==> depthMetres.Finite? && 20000.0 <= depthMetres.value < 40000.0
    ensures r == Purple <==> depthMetres.PositiveInfinity? || (depthMetres.Finite? && 40000.0 <= depthMetres.value)
  {
    var depth := DivideBy(depthMetres, 1000.0);
    if depth.NaN? then White
    else if LessThan(depth, 0.0) then Red
    else if LessThan(depth, 5.0) then Orange
    else if LessThan(depth, 13.0) then Yellow
    else if LessThan(depth, 20.0) then Green
    else if LessThan(depth, 40.0) then Blue
    else Purple
  }

  /** The colour of an event that is not hovered, in age mode, from its age
      in milliseconds: younger than an hour, a day, a week, or older. */
  function AgeColor(age: int): (r: Color)
    ensures r == Red <==> age < 3_600_000
    ensures r == Orange <==> 3_600_000 <= age < 86_400_000
    ensures r == Yellow <==> 86_400_000 <= age < 604_800_000
    ensures r == White <==> 604_800_000 <= age
    ensures r !in {Green, Blue, Purple}
  {
    if age < OneHour then Red
    else if age < OneDay then Orange
    else if age < OneWeek then Yellow
    else White
  }

  /** The fill colour of an event's marker; only events with an origin are
      drawn.  The hovered event is green whatever its depth or age; away
      from the hover, green means a depth between 13 and 20 km in depth mode
      and never occurs in age mode. */
  function MarkerColor(e: Event, hover: Event?, setting: ColorSetting, nowMillis: int): (r: Color)
    requires e.preferredOrigin.Some?
    ensures e == hover ==> r == Green
    ensures e != hover && setting == Depth ==> r == DepthColor(e.preferredOrigin.value.depth)
    ensures e != hover && setting == Age ==> r == AgeColor(nowMillis - e.preferredOrigin.value.time)
    ensures e != hover ==>
              (r == Green <==>
                 setting == Depth && e.preferredOrigin.value.depth.Finite? &&
                 13000.0 <= e.preferredOrigin.value.depth.value < 20000.0)
  {
    var origin := e.preferredOrigin.value;
    match setting
    case Depth => if e == hover then Green else DepthColor(origin.depth)
    case Age => if e == hover then Green else AgeColor(nowMillis - origin.time)
  }

  // ---------------------------------------------------------------------
  // Hit testing

  /** A pixel position on the map panel. */
  datatype ScreenPoint = ScreenPoint(x: Int32, y: Int32)

  /** What a pointer move reads from the map panel: whether a longitude and
      latitude lie in the visible range, and the pixel at which they land
      after projection and the `(int)` casts. */
  datatype Viewport = Viewport(inRange: (Double, Double) -> bool, screen: (Double, Double) -> ScreenPoint)

  /** java.awt.Rectangle.contains(Point) for the rectangle with top-left
      (x, y), width w and height h, including its handling of int overflow
      of x + w and y + h.  A contained point is never left of or above the
      top-left corner, and away from overflow containment is the half-open
      test x <= px < x+w, y <= py < y+h. */
  predicate RectangleContains(x: Int32, y: Int32, w: Int32, h: Int32, px: Int32, py: Int32)
    ensures RectangleContains(x, y, w, h, px, py) ==> 0 <= w && 0 <= h && x <= px && y <= py
    ensures 0 <= w && 0 <= h && x + w <= IntMax && y + h <= IntMax ==>
              (RectangleContains(x, y, w, h, px, py) <==> x <= px < x + w && y <= py < y + h)
  {
    if w < 0 || h < 0 then false
    else if px < x || py < y then false
    else
      var right := Wrap32(w + x);
      var bottom := Wrap32(h + y);
      (right < x || right > px) && (bottom < y || bottom > py)
  }

  /** What examining one event in the pointer-move scan does: nothing, make
      it the hover, clear a stale hover, or throw out of getMarkerSize. */
  datatype HoverStep = NoChange | SetHover(event: Event) | ClearHover | OutOfBounds

  /** Whether the pointer is on the marker of `e`: `e` has an origin in the
      visible range, its marker size lookup succeeds, and the marker's
      rectangle at the projected pixel contains the pointer. */
  predicate OnMarker(e: Event, view: Viewport, px: Int32, py: Int32) {
    && e.preferredOrigin.Some?
    && view.inRange(e.preferredOrigin.value.longitude, e.preferredOrigin.value.latitude)
    && MarkerDiameter(e.preferredMagnitude).Ok?
    && var p := view.screen(e.preferredOrigin.value.longitude, e.preferredOrigin.value.latitude);
       var d := MarkerDiameter(e.preferredMagnitude).value;
       RectangleContains(p.x, p.y, d, d, px, py)
  }

  /** One iteration of the pointer-move loop on event `e`, with `hover` the current hover. */
  function Probe(e: Event, hover: Event?, view: Viewport, px: Int32, py: Int32): (r: HoverStep)
    ensures e.preferredOrigin.None? ==> r == NoChange
    ensures (e.preferredOrigin.Some? &&
             !view.inRange(e.preferredOrigin.value.longitude, e.preferredOrigin.value.latitude)) ==> r == NoChange
    ensures OnMarker(e, view, px, py) ==> r == SetHover(e)
    ensures (e.preferredOrigin.Some? &&
             view.inRange(e.preferredOrigin.value.longitude, e.preferredOrigin.value.latitude) &&
             MarkerDiameter(e.preferredMagnitude).Ok? && !OnMarker(e, view, px, py)) ==>
              r == (if e == hover then ClearHover else NoChange)
    ensures r.SetHover? ==> r.event == e
    ensures r.ClearHover? ==> e == hover
    ensures r.OutOfBounds? <==>
              e.preferredOrigin.Some? &&
              view.inRange(e.preferredOrigin.value.longitude, e.preferredOrigin.value.latitude) &&
              MarkerDiameter(e.preferredMagnitude).Err?
  {
    match e.preferredOrigin
    case None => NoChange
    case Some(o) =>
      if !view.inRange(o.longitude, o.latitude) then NoChange
      else
        match MarkerDiameter(e.preferredMagnitude)
        case Err(_) => OutOfBounds
        case Ok(d) =>
          var p := view.screen(o.longitude, o.latitude);
          if RectangleContains(p.x, p.y, d, d, px, py) then SetHover(e)
          else if e == hover then ClearHover
          else NoChange
  }

  /** The pointer-move scan over the events in iteration order: the first
      step that does something ends it. */
  function Scan(es: seq<Event>, hover: Event?, view: Viewport, px: Int32, py: Int32): (r: HoverStep)
    ensures r.SetHover? ==> r.event in es
    ensures r.ClearHover? ==> hover != null && hover in es  // a hover no longer displayed is never cleared
  {
    if es == [] then NoChange
    else
      var step := Probe(es[0], hover, view, px, py);
      if step.NoChange? then Scan(es[1..], hover, view, px, py) else step
  }

  /** One unfolding of the scan of a suffix: the step of the suffix's first
      event, or the scan of the rest. */
  lemma ScanUnfold(es: seq<Event>, i: nat, hover: Event?, view: Viewport, px: Int32, py: Int32)
    requires i < |es|
    ensures Scan(es[i..], hover, view, px, py) ==
              if Probe(es[i], hover, view, px, py).NoChange? then Scan(es[i + 1..], hover, view, px, py)
              else Probe(es[i], hover, view, px, py)
  {
    assert es[i..][0] == es[i] && es[i..][1..] == es[i + 1..];
  }

  /** The value mouseMoved returns, or the exception it throws, after a scan. */
  function Handled(step: HoverStep): Result<bool> {
    match step
    case NoChange => Ok(false)
    case OutOfBounds => Err(ArrayIndexOutOfBounds)
    case _ => Ok(true)
  }

  /** The hover after a scan that started from `hover`. */
  function HoverAfter(step: HoverStep, hover: Event?): Event? {
    match step
    case SetHover(e) => e
    case ClearHover => null
    case _ => hover
  }

  /** The scan is decided by the first event whose step is not NoChange,
      and changes nothing when there is none. */
  lemma {:induction false} ScanIsFirstStep(es: seq<Event>, hover: Event?, view: Viewport, px: Int32, py: Int32)
    ensures Scan(es, hover, view, px, py) == NoChange <==>
              forall i :: 0 <= i < |es| ==> Probe(es[i], hover, view, px, py) == NoChange
    ensures forall k ::
              (0 <= k < |es| && Probe(es[k], hover, view, px, py) != NoChange &&
               (forall i :: 0 <= i < k ==> Probe(es[i], hover, view, px, py) == NoChange)) ==>
              Scan(es, hover, view, px, py) == Probe(es[k], hover, view, px, py)
  {
    if es != [] {
      ScanIsFirstStep(es[1..], hover, view, px, py);
      assert forall i :: 1 <= i < |es| ==> es[1..][i - 1] == es[i];
      if Probe(es[0], hover, view, px, py) == NoChange {
        forall k | 0 < k < |es| && Probe(es[k], hover, view, px, py) != NoChange &&
                   (forall i :: 0 <= i < k ==> Probe(es[i], hover, view, px, py) == NoChange)
          ensures Scan(es, hover, view, px, py) == Probe(es[k], hover, view, px, py)
        {
          assert es[1..][k - 1] == es[k];
          forall i | 0 <= i < k - 1 ensures Probe(es[1..][i], hover, view, px, py) == NoChange {
            assert es[1..][i] == es[i + 1];
          }
        }
      }
    }
  }

  /** Of two overlapping markers, the one met first in iteration order
      becomes the hover: one pointer move selects at most one event. */
  lemma OverlappingMarkersSelectFirst(es: seq<Event>, hover: Event?, view: Viewport, px: Int32, py: Int32, i: int, j: int)
    requires 0 <= i < j < |es|
    requires Probe(es[i], hover, view, px, py) == SetHover(es[i])
    requires Probe(es[j], hover, view, px, py) == SetHover(es[j])
    requires forall k :: 0 <= k < i ==> Probe(es[k], hover, view, px, py) == NoChange
    ensures Scan(es, hover, view, px, py) == SetHover(es[i])
    ensures HoverAfter(Scan(es, hover, view, px, py), hover) == es[i]
  {
    ScanIsFirstStep(es, hover, view, px, py);
  }

  /** Reaching the current hover without the pointer on it clears the hover
      and ends the scan, even when a later marker contains the pointer. */
  lemma StaleHoverEndsScan(es: seq<Event>, hover: Event?, view: Viewport, px: Int32, py: Int32, k: int, later: int)
    requires 0 <= k < later < |es|
    requires Probe(es[k], hover, view, px, py) == ClearHover
    requires Probe(es[later], hover, view, px, py) == SetHover(es[later])
    requires forall i :: 0 <= i < k ==> Probe(es[i], hover, view, px, py) == NoChange
    ensures Scan(es, hover, view, px, py) == ClearHover
    ensures HoverAfter(Scan(es, hover, view, px, py), hover) == null
  {
    ScanIsFirstStep(es, hover, view, px, py);
  }

  /** A scan clears the hover only on reaching that very event, visible and
      in range, with the pointer outside its marker. */
  lemma {:induction false} ClearHoverMeansStale(es: seq<Event>, hover: Event?, view: Viewport, px: Int32, py: Int32)
    requires Scan(es, hover, view, px, py) == ClearHover
    ensures hover != null && hover in es && Probe(hover, hover, view, px, py) == ClearHover
  {
    if Probe(es[0], hover, view, px, py) == NoChange {
      ClearHoverMeansStale(es[1..], hover, view, px, py);
    }
  }

  /** Pointing again at the marker of the current hover, when no earlier
      event stops the scan, reports the move as handled although the hover
      does not change. */
  lemma RehitReportsHandled(es: seq<Event>, hover: Event, view: Viewport, px: Int32, py: Int32, k: int)
    requires 0 <= k < |es| && es[k] == hover
    requires forall i :: 0 <= i < k ==> Probe(es[i], hover, view, px, py) == NoChange
    requires OnMarker(hover, view, px, py)
    ensures Scan(es, hover, view, px, py) == SetHover(hover)
    ensures Handled(Scan(es, hover, view, px, py)) == Ok(true)
    ensures HoverAfter(Scan(es, hover, view, px, py), hover) == hover
  {
    ScanIsFirstStep(es, hover, view, px, py);
  }

  /** The body of the pointer-move loop for one event, statement by
      statement: skip it without an origin or outside the visible range,
      size its marker (which may throw), and test the pointer against the
      marker's rectangle, then against the current hover.  It is kept as a
      method, beside the function `Probe` that specifies it, so that the
      loop of `MouseMoved` runs the source's early exits in their order. */
  method ExamineEvent(event: Event, hover: Event?, view: Viewport, px: Int32, py: Int32) returns (step: HoverStep)
    ensures step == Probe(event, hover, view, px, py)
    ensures step.SetHover? ==> step.event == event
    ensures step.ClearHover? ==> event == hover
  {
    if event.preferredOrigin.None? {
      return NoChange;
    }
    var origin := event.preferredOrigin.value;
    if !view.inRange(origin.longitude, origin.latitude) {
      return NoChange;
    }
    var markerDiameter := DefaultDiameter;
    if event.preferredMagnitude.Some? {
      var size := MarkerSize(event.preferredMagnitude.value);
      if size.Err? {
        return OutOfBounds;
      }
      markerDiameter := size.value;
    }
    var p := view.screen(origin.longitude, origin.latitude);
    if RectangleContains(p.x, p.y, markerDiameter, markerDiameter, px, py) {
      step := SetHover(event);
    } else if event == hover {
      step := ClearHover;
    } else {
      step := NoChange;
    }
  }

  // ---------------------------------------------------------------------
  // The event cache

  /** The displayed map after a feed refresh: the snapshot overlaid by the imported events. */
  function Overlay(feed: map<string, Event>, imported: map<string, Event>): (r: map<string, Event>)
    ensures r.Keys == feed.Keys + imported.Keys
    ensures forall id :: id in imported ==> r[id] == imported[id]
    ensures forall id :: id in feed && id !in imported ==> r[id] == feed[id]
  {
    feed + imported
  }

  /** Whether `order` lists every key of `evs` exactly once: the order in
      which the map's iterator hands out its values.  Distinct keys of the
      map, as many as the map has, are all of its keys. */
  ghost predicate IsIterationOrder(order: seq<string>, evs: map<string, Event>) {
    && |order| == |evs|
    && (forall i :: 0 <= i < |order| ==> order[i] in evs)
    && (forall i, j :: 0 <= i < j < |order| ==> order[i] != order[j])
  }

  /** The displayed events in iteration order. */
  function Listed(order: seq<string>, evs: map<string, Event>): (es: seq<Event>)
    requires forall i :: 0 <= i < |order| ==> order[i] in evs
    ensures |es| == |order|
    ensures forall i :: 0 <= i < |order| ==> es[i] == evs[order[i]]
  {
    if order == [] then [] else [evs[order[0]]] + Listed(order[1..], evs)
  }

  /** The configured hypocenter source, as settingsChanged finds it. */
  datatype HypocenterSource =
    | NoSource                                   // NONE: no feed
    | Feed(snapshot: map<string, Event>)         // a feed, with the snapshot its new source holds
    | MalformedUrl                               // a feed whose URL does not parse

  class HypocenterLayer {
    /** The events on display, by public id. */
    var events: map<string, Event>
    /** The events the user imported, by public id. */
    var importedEvents: map<string, Event>
    /** The event under the pointer, if any. */
    var hoverEvent: Event?

    /** A new layer; with a configured source it shows that source's first snapshot. */
    constructor (source: HypocenterSource)
      requires !source.MalformedUrl?
      ensures importedEvents == map[] && hoverEvent == null
      ensures events == if source.Feed? then source.snapshot else map[]
    {
      events := map[];
      importedEvents := map[];
      hoverEvent := null;
      new;
      if source.Feed? {
        Update(source.snapshot);
      }
    }

    /** A feed refresh: the displayed events become the snapshot overlaid by the imported ones. */
    method Update(feed: map<string, Event>)
      modifies this`events
      ensures events == Overlay(feed, importedEvents)
      ensures importedEvents == old(importedEvents) && hoverEvent == old(hoverEvent)
    {
      events := map[];
      events := events + feed;
      events := events + importedEvents;
    }

    /** Imports a set of events into both maps, replacing events with the same ids. */
    method Add(eventSet: map<string, Event>)
      modifies this`events, this`importedEvents
      ensures importedEvents == old(importedEvents) + eventSet
      ensures events == old(events) + eventSet
      ensures hoverEvent == old(hoverEvent)
    {
      importedEvents := importedEvents + eventSet;
      events := events + eventSet;
    }

    /** Removes an id from the displayed events; the imported events are left as they are. */
    method Remove(publicId: string)
      modifies this`events
      ensures events == old(events) - {publicId}
      ensures publicId !in events
      ensures forall id :: id in old(events) && id != publicId ==> id in events && events[id] == old(events)[id]
      ensures importedEvents == old(importedEvents) && hoverEvent == old(hoverEvent)
    {
      if publicId in importedEvents {
        events := events - {publicId};
      }
      if publicId in events {
        events := events - {publicId};
      }
    }

    /** A configuration change: no source empties the displayed events (and
        only those), a new feed refreshes from its snapshot, and a URL that
        does not parse changes nothing. */
    method SettingsChanged(source: HypocenterSource)
      modifies this`events
      ensures source.NoSource? ==> events == map[]
      ensures source.Feed? ==> events == Overlay(source.snapshot, importedEvents)
      ensures source.MalformedUrl? ==> events == old(events)
      ensures importedEvents == old(importedEvents) && hoverEvent == old(hoverEvent)
    {
      match source
      case NoSource =>
        events := map[];
      case Feed(snapshot) =>
        Update(snapshot);
      case MalformedUrl =>
    }

    /** Refreshing twice with the same snapshot displays the same events as
        refreshing once. */
    static method RefreshIdempotent(layer: HypocenterLayer, feed: map<string, Event>)
      returns (once: map<string, Event>, twice: map<string, Event>)
      modifies layer
      ensures once == twice
    {
      layer.Update(feed);
      once := layer.events;
      layer.Update(feed);
      twice := layer.events;
    }

    /** Removing an imported id only hides it until the next refresh, which
        brings the imported event back whatever the snapshot. */
    static method RemovedImportReturnsOnRefresh(layer: HypocenterLayer, id: string, feed: map<string, Event>)
      returns (hidden: bool)
      requires id in layer.importedEvents
      modifies layer
      ensures hidden
      ensures id in layer.importedEvents && id in layer.events && layer.events[id] == layer.importedEvents[id]
    {
      layer.Remove(id);
      hidden := id !in layer.events;
      layer.Update(feed);
    }

    /** Removing an id that was never imported keeps it away after a refresh
        whose snapshot lacks it. */
    static method RemovedFeedEventStaysAway(layer: HypocenterLayer, id: string, feed: map<string, Event>)
      requires id !in layer.importedEvents && id !in feed
      modifies layer
      ensures id !in layer.events
    {
      layer.Remove(id);
      layer.Update(feed);
    }

    /** A pointer move at (px, py).  `view` is None when the panel has no
        range or no projection; `order` is the order in which the displayed
        map hands out its events.  The scan stops at the first event whose
        marker contains the pointer (it becomes the hover) or at the current
        hover with the pointer off it (the hover is cleared). */
    method MouseMoved(px: Int32, py: Int32, view: Option<Viewport>, order: seq<string>) returns (r: Result<bool>)
      requires IsIterationOrder(order, events)
      modifies this`hoverEvent
      ensures |events| < 1 || view.None? ==> r == Ok(false) && hoverEvent == old(hoverEvent)
      ensures |events| >= 1 && view.Some? ==>
                var step := Scan(Listed(order, events), old(hoverEvent), view.value, px, py);
                r == Handled(step) && hoverEvent == HoverAfter(step, old(hoverEvent))
    {
      if |events| < 1 {
        return Ok(false);
      }
      if view.None? {
        return Ok(false);
      }
      var v := view.value;
      ghost var es := Listed(order, events);
      ghost var hover0 := hoverEvent;
      ghost var result := Scan(es, hover0, v, px, py);
      var i := 0;
      var handled := false;
      while i < |order| && !handled
        invariant 0 <= i <= |order|
        invariant !handled ==> hoverEvent == hover0 && result == Scan(es[i..], hover0, v, px, py)
        invariant handled ==> Handled(result) == Ok(true) && hoverEvent == HoverAfter(result, hover0)
      {
        var event := events[order[i]];
        ScanUnfold(es, i, hover0, v, px, py);
        i := i + 1;
        var step := ExamineEvent(event, hoverEvent, v, px, py);
        match step
        case NoChange =>
        case OutOfBounds =>
          return Err(ArrayIndexOutOfBounds);
        case SetHover(e) =>
          hoverEvent := e;
          handled := true;
        case ClearHover =>
          hoverEvent := null;
          handled := true;
      }
      r := Ok(handled);
    }

    /** A click: with a hover, opens that event (the event handed to the
        event viewer is returned, null when none) and clears the hover. */
    method MouseClicked() returns (handled: bool, openedEvent: Event?)
      modifies this`hoverEvent
      ensures handled <==> old(hoverEvent) != null
      ensures openedEvent == old(hoverEvent)
      ensures hoverEvent == null
      ensures events == old(events) && importedEvents == old(importedEvents)
    {
      handled := false;
      openedEvent := null;
      if hoverEvent != null {
        openedEvent := hoverEvent;
        handled := true;
        hoverEvent := null;
      }
    }
  }
}
