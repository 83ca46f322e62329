# Swarm map core in Dafny

A model of three pieces of Swarm, the USGS seismic waveform viewer, and
proofs about them.

- **The hypocenter layer** (`hypocenters.dfy`, module `Hypocenters`) covers
  the earthquakes drawn on the map. It keeps a cache of displayed events and
  user-imported events, keyed by public id. A feed refresh rebuilds the
  displayed map as the feed snapshot overlaid by the imported events.
  - A marker's diameter comes from a table indexed by the whole part of the
    magnitude.
  - A marker's colour comes from the depth or the age of its origin. The
    event under the pointer (the *hover*) is always green.
  - A pointer move scans the displayed events in the map's iteration order.
    The first marker whose rectangle contains the pointer becomes the hover.
    Reaching the current hover with the pointer off its marker clears the
    hover. Either way the scan stops there.
  - A click opens the hovered event and clears the hover.
  - `HypocenterLayer` is a class whose methods update its three fields in
    place. The scan is a `while` loop proved against the recursive function
    `Scan`. Lemmas about `Scan` state the single-selection properties.
- **Channel information** (`channel_info.dfy`, module `Channels`) is the
  "S C N L" code of a seismic channel: station, channel, network and
  location separated by single spaces.
  - Formatting joins the fields.
  - Parsing uses Java's `String.split(" ")`, modelled exactly: leading and
    interior empty tokens are kept, trailing empty tokens are dropped, and
    a non-empty string of spaces splits into nothing.
  - `equals`, `hashCode` and `toString` all go through the formatted code.
- **The map frame** (`map_frame.dfy`, module `MapFrames`) handles the map
  window's time range. Its state is three fields:
  - `spanIndex`, an index into the table of realtime window lengths;
  - `realtime`, whether the window follows the clock;
  - `heliLinked`, whether it follows the helicorder's insets.
  Each toolbar button that changes the time state (link, scroll back and
  forward, time history, shrink and expand axis), the helicorder inset
  listener and one pass of the update loop is a method of the `MapFrame`
  class. Each method is proved
  equal to a pure transition function `Step`. `Step` also records the calls
  made on the map panel. Lemmas about `Step` and `Run` state what the
  buttons do and which invariants hold over any sequence of actions.
- **Java semantics** (`java_lang.dfy`, module `JavaLang`) holds the parts of
  Java that the above depend on:
  - `int` wrap-around;
  - `double` values with infinities and NaN, and comparisons with NaN;
  - the saturating `(int)` cast of section 5.1.3 of the Java Language
    Specification;
  - a value-or-exception `Result`.

In four places the code behaves in a way a reader may not expect, and the
model keeps that behaviour:
- `getMarkerSize` clamps the index to the table's length, not to its last
  index. So a magnitude of 11 or more (or +∞) throws
  `ArrayIndexOutOfBoundsException`, and `mouseMoved` propagates it. The
  model returns `Err(ArrayIndexOutOfBounds)` in those cases.
- `remove(id)` deletes the id from the displayed events only. An imported
  event therefore comes back on the next feed refresh
  (`RemovedImportReturnsOnRefresh`). Turning the feed off (`settingsChanged`
  with no source) empties the displayed events and keeps the imported ones.
- `mouseMoved` returns true when the pointer lands on the marker of the
  event that is already the hover, although the hover does not change
  (`RehitReportsHandled`).
- A hover is cleared only when the scan reaches it, with the pointer off it.
  If an earlier marker contains the pointer, or the hover is no longer
  among the displayed events, the hover stays (`Scan`,
  `ClearHoverMeansStale`).

Inputs from outside the core are parameters:
- the map panel's visible range and projection are a `Viewport`;
- the iteration order of the events map is a sequence of ids;
- a feed's snapshot is a map;
- the frame's visibility and the current time are arguments of `Tick`;
- `MultiMonitor.SPANS` is the `spans` constant of the frame.
  `MultiMonitor` is not part of this model.

## Model

| member | source | states |
|---|---|---|
| JavaLang.IntCast | src/main/java/gov/usgs/volcanoes/swarm/map/hypocenters/HypocenterLayer.java:199 | `(int) d`: NaN gives 0; a non-negative double below the `int` range truncates to its floor; a negative one gives at most 0; +∞ and values beyond the range saturate at `Integer.MAX_VALUE` |
| Hypocenters.MarkerSize | src/main/java/gov/usgs/volcanoes/swarm/map/hypocenters/HypocenterLayer.java:198-202 | the lookup throws exactly when `(int) mag` is 11 or more; otherwise the diameter is an entry of the table |
| Hypocenters.MarkerDiameter | src/main/java/gov/usgs/volcanoes/swarm/map/hypocenters/HypocenterLayer.java:374-378 | an event without a magnitude gets diameter 5; every diameter returned lies between 5 and 37 |
| Hypocenters.MarkerSizeByMagnitude | src/main/java/gov/usgs/volcanoes/swarm/map/hypocenters/HypocenterLayer.java:198-202 | negative magnitudes give 5; a magnitude in [0, 11) gives the table entry at its floor; 11 and above throw |
| Hypocenters.MarkerSizeSpecialValues | src/main/java/gov/usgs/volcanoes/swarm/map/hypocenters/HypocenterLayer.java:198-202 | a missing magnitude, NaN and −∞ give the smallest marker; +∞ throws |
| Hypocenters.MarkerSizesIncreasing | src/main/java/gov/usgs/volcanoes/swarm/map/hypocenters/HypocenterLayer.java:50 | the diameter table is increasing |
| Hypocenters.MarkerSizeMonotonic | src/main/java/gov/usgs/volcanoes/swarm/map/hypocenters/HypocenterLayer.java:198-202 | a larger magnitude never gets a smaller marker; if a magnitude's lookup fails, so does every larger one's |
| Hypocenters.DepthColor | src/main/java/gov/usgs/volcanoes/swarm/map/hypocenters/HypocenterLayer.java:150-168 | for each colour, iff: NaN is white; below 0 km (and −∞) red; [0,5) km orange; [5,13) yellow; [13,20) green; [20,40) blue; from 40 km (and +∞) purple. Depths are in metres, divided by 1000 |
| Hypocenters.AgeColor | src/main/java/gov/usgs/volcanoes/swarm/map/hypocenters/HypocenterLayer.java:169-181 | for each colour, iff: red under an hour; orange under a day; yellow under a week; white otherwise; green, blue and purple never occur by age |
| Hypocenters.MarkerColor | src/main/java/gov/usgs/volcanoes/swarm/map/hypocenters/HypocenterLayer.java:149-182 | the hovered event is green in both modes, whatever its depth or age; any other event takes the depth band of its depth in depth mode and the age band of its age in age mode, so it is green iff the mode is depth and its depth is in [13, 20) km |
| Hypocenters.RectangleContains | src/main/java/gov/usgs/volcanoes/swarm/map/hypocenters/HypocenterLayer.java:379-391 | a contained point is never left of or above the top-left corner; when x + w and y + h do not overflow, the rectangle contains the pointer iff x ≤ px < x + w and y ≤ py < y + h |
| Hypocenters.Probe | src/main/java/gov/usgs/volcanoes/swarm/map/hypocenters/HypocenterLayer.java:364-399 | an event without an origin or outside the visible range changes nothing; throws iff the event is in range and its marker size lookup throws; otherwise, with the pointer on the event's marker the event becomes the hover, and with the pointer off it the hover is cleared iff the event is the hover, else nothing changes |
| Hypocenters.Scan | src/main/java/gov/usgs/volcanoes/swarm/map/hypocenters/HypocenterLayer.java:359-400 | a scan sets as hover only one of the scanned events, and clears only a hover that is among them, so a hover no longer displayed is never cleared |
| Hypocenters.ExamineEvent | src/main/java/gov/usgs/volcanoes/swarm/map/hypocenters/HypocenterLayer.java:364-399 | one loop iteration produces the step `Probe` specifies; it can only set the examined event as hover, and it clears only when the examined event is the current hover |
| Hypocenters.ScanIsFirstStep | src/main/java/gov/usgs/volcanoes/swarm/map/hypocenters/HypocenterLayer.java:359-400 | the scan changes nothing iff no event's step does; otherwise its outcome is the step of the first event that does something |
| Hypocenters.OverlappingMarkersSelectFirst | src/main/java/gov/usgs/volcanoes/swarm/map/hypocenters/HypocenterLayer.java:359-400 | when two markers contain the pointer, the one met first in iteration order becomes the only hover |
| Hypocenters.StaleHoverEndsScan | src/main/java/gov/usgs/volcanoes/swarm/map/hypocenters/HypocenterLayer.java:391-399 | reaching the current hover with the pointer off it clears the hover, even when a later marker contains the pointer |
| Hypocenters.ClearHoverMeansStale | src/main/java/gov/usgs/volcanoes/swarm/map/hypocenters/HypocenterLayer.java:395-399 | the scan clears the hover only if the hover is among the scanned events and its own step is to clear |
| Hypocenters.RehitReportsHandled | src/main/java/gov/usgs/volcanoes/swarm/map/hypocenters/HypocenterLayer.java:391-394 | with the pointer on the current hover's marker and every earlier event unchanged, the scan sets the same hover again, the move is reported as handled, and the hover stays |
| Hypocenters.Overlay | src/main/java/gov/usgs/volcanoes/swarm/map/hypocenters/HypocenterLayer.java:436-439 | the refreshed map's ids are the snapshot's and the imported ones; an imported id maps to its imported event; any other id maps to its snapshot event |
| Hypocenters.HypocenterLayer.RefreshIdempotent | src/main/java/gov/usgs/volcanoes/swarm/map/hypocenters/HypocenterLayer.java:436-443 | on a layer, two refreshes with the same snapshot display the same events as one |
| Hypocenters.HypocenterLayer.RemovedImportReturnsOnRefresh | src/main/java/gov/usgs/volcanoes/swarm/map/hypocenters/HypocenterLayer.java:462-468 | on a layer, removing an imported id hides it, and the next refresh with any snapshot brings back the imported event |
| Hypocenters.HypocenterLayer.RemovedFeedEventStaysAway | src/main/java/gov/usgs/volcanoes/swarm/map/hypocenters/HypocenterLayer.java:462-468 | on a layer, an id that was never imported stays absent after removal and a refresh whose snapshot lacks it |
| Hypocenters.HypocenterLayer.constructor | src/main/java/gov/usgs/volcanoes/swarm/map/hypocenters/HypocenterLayer.java:76-98 | for a source that is either absent or a feed with a parseable URL, the new layer has no imported events and no hover; it displays the feed's snapshot, or nothing without a feed |
| Hypocenters.HypocenterLayer.Update | src/main/java/gov/usgs/volcanoes/swarm/map/hypocenters/HypocenterLayer.java:436-443 | the displayed events become the snapshot overlaid by the imported events; imports and hover are unchanged |
| Hypocenters.HypocenterLayer.Add | src/main/java/gov/usgs/volcanoes/swarm/map/hypocenters/HypocenterLayer.java:409-411 | the event set is merged, overriding same ids, into both the imported and the displayed events |
| Hypocenters.HypocenterLayer.Remove | src/main/java/gov/usgs/volcanoes/swarm/map/hypocenters/HypocenterLayer.java:462-470 | the id leaves the displayed events and every other entry stays; the imported events are unchanged |
| Hypocenters.HypocenterLayer.SettingsChanged | src/main/java/gov/usgs/volcanoes/swarm/map/hypocenters/HypocenterLayer.java:309-334 | with no source, the displayed events (only) are emptied; a new feed refreshes from its snapshot; a malformed URL changes nothing |
| Hypocenters.HypocenterLayer.MouseMoved | src/main/java/gov/usgs/volcanoes/swarm/map/hypocenters/HypocenterLayer.java:341-402 | with no events, no range or no projection, returns false and keeps the hover; otherwise the result and the new hover are those of `Scan` over the events in iteration order (true when the hover was set or cleared; an exception when a marker size lookup throws) |
| Hypocenters.HypocenterLayer.MouseClicked | src/main/java/gov/usgs/volcanoes/swarm/map/hypocenters/HypocenterLayer.java:291-302 | handled iff there was a hover; that event is the one opened; the hover is cleared; the event maps are unchanged |
| Channels.JavaSplit | gov/usgs/swarm/ChannelInfo.java:73 | `split(" ")` yields space-free tokens, and when it yields more than one the last is not empty |
| Channels.JavaSplitJoin | gov/usgs/swarm/ChannelInfo.java:73 | joining the tokens with single spaces gives the input back, less some trailing spaces |
| Channels.JavaSplitEmpty | gov/usgs/swarm/ChannelInfo.java:73-74 | the split is empty (so `ss[0]` throws) iff the input is a non-empty string of spaces |
| Channels.JavaSplitOfJoin | gov/usgs/swarm/ChannelInfo.java:73 | splitting the join of space-free tokens gives the tokens back, when the last of several is not empty |
| Channels.FormattedScnl | gov/usgs/swarm/ChannelInfo.java:26-31 | the code is station, channel and network, then the location only if it is non-empty, joined by single spaces |
| Channels.FromStation | gov/usgs/swarm/ChannelInfo.java:51-58 | keeps the station information, channel and location, and stores their formatted code |
| Channels.FromFields | gov/usgs/swarm/ChannelInfo.java:109-114 | keeps station, channel, network and location, and stores their formatted code |
| Channels.Parse | gov/usgs/swarm/ChannelInfo.java:65-96 | throws iff the input is a non-empty string of spaces; otherwise token 0 of the split is the station; below three tokens channel, network and location are empty; from three tokens on, tokens 1 and 2 are channel and network and token 3, if any, the location; a fifth and sixth token give latitude and longitude; the stored code is the formatted code of the fields, and no field holds a space |
| Channels.ParseTwoTokens | gov/usgs/swarm/ChannelInfo.java:74-91 | a code of exactly two non-empty tokens keeps only the station: channel, network and location are empty |
| Channels.ParseFormatted | gov/usgs/swarm/ChannelInfo.java:65-96 | parsing a formatted code returns the same four fields and code when no field holds a space and the network or the location is non-empty |
| Channels.ParseLosesChannelWithoutNetwork | gov/usgs/swarm/ChannelInfo.java:65-96 | with an empty network and location the formatted code ends in a space, and parsing it loses the channel |
| Channels.EqualsContract | gov/usgs/swarm/ChannelInfo.java:122-127 | `equals` is reflexive, symmetric and transitive; it holds iff the `toString` values are equal; equal objects have equal hash codes |
| Channels.EqualsIgnoresPosition | gov/usgs/swarm/ChannelInfo.java:122-127 | two channels built from the same four fields are equal whatever their coordinates and site names |
| Channels.Equals | gov/usgs/swarm/ChannelInfo.java:122-127 | channel informations built from the same station, channel, network and location are equal |
| Channels.ToString | gov/usgs/swarm/ChannelInfo.java:244-247 | for a channel information built by a constructor, `toString` is its fields joined by single spaces, the location only when non-empty |
| Channels.EqualsIffSameScnl | gov/usgs/swarm/ChannelInfo.java:122-127 | for space-free fields and non-empty networks, equality holds iff station, channel, network and location all agree |
| Channels.StringHash | gov/usgs/swarm/ChannelInfo.java:234-237 | `String.hashCode` computed character by character is s[0]·31^(n−1) + … + s[n−1], reduced to a 32-bit `int` |
| Channels.HashCode | gov/usgs/swarm/ChannelInfo.java:234-237 | the hash code is the documented string hash of the `toString` value, reduced to an `int` |
| MapFrames.Step | gov/usgs/swarm/map/MapFrame.java:271-303 | every action keeps `spanIndex` inside the spans table |
| MapFrames.AxisButtonsInRealtime | gov/usgs/swarm/map/MapFrame.java:271-303 | in realtime, shrink moves `spanIndex` down by one and expand moves it up by one, stopping at the ends of the table; neither calls the panel |
| MapFrames.AxisButtonsOutsideRealtime | gov/usgs/swarm/map/MapFrame.java:271-303 | outside realtime, shrink and expand leave the state as it is and scale the panel's time by +20% and −20% |
| MapFrames.LinkToggle | gov/usgs/swarm/map/MapFrame.java:162-169 | the link follows the button; unlinking turns realtime on; linking keeps the mode |
| MapFrames.RealtimeResumesOnlyOnUnlink | gov/usgs/swarm/map/MapFrame.java:162-169 | the only action that turns realtime back on is unlinking |
| MapFrames.InsetWhenLinked | gov/usgs/swarm/map/MapFrame.java:122-131 | when linked, an inset leaves realtime and sets the panel to its times, pushing the old times first only when they were not realtime; when unlinked, it does nothing |
| MapFrames.TickWindow | gov/usgs/swarm/map/MapFrame.java:373-378 | a tick changes no state; it sets the panel's window iff the frame is visible and realtime, and the window then ends now and is `spans[spanIndex]` seconds long |
| MapFrames.Run | gov/usgs/swarm/map/MapFrame.java:271-303 | any sequence of actions keeps `spanIndex` inside the spans table |
| MapFrames.SpanIndexOnlyMovedByAxisButtons | gov/usgs/swarm/map/MapFrame.java:271-303 | without the two axis buttons, `spanIndex` never changes |
| MapFrames.HistoricWindowIsKept | gov/usgs/swarm/map/MapFrame.java:373-378 | outside realtime, and while the link is not turned off, the frame stays outside realtime, and without insets the panel's times are never set |
| MapFrames.MapFrame.constructor | gov/usgs/swarm/map/MapFrame.java:62-71 | a new frame has span index 3, is realtime and linked, and has made no panel calls |
| MapFrames.MapFrame.OnLinkToggled | gov/usgs/swarm/map/MapFrame.java:162-169 | the new state and the calls made are those of `Step` for the link button |
| MapFrames.MapFrame.OnInsetCreated | gov/usgs/swarm/map/MapFrame.java:122-131 | the new state and the calls made are those of `Step` for an inset |
| MapFrames.MapFrame.OnScrollBack | gov/usgs/swarm/map/MapFrame.java:224-230 | leaves realtime and shifts the panel's time back by 20%, as `Step` states |
| MapFrames.MapFrame.OnScrollForward | gov/usgs/swarm/map/MapFrame.java:240-246 | leaves realtime and shifts the panel's time forward by 20%, as `Step` states |
| MapFrames.MapFrame.OnTimeHistory | gov/usgs/swarm/map/MapFrame.java:313-317 | leaves realtime and pops the panel's time history, as `Step` states |
| MapFrames.MapFrame.OnShrinkAxis | gov/usgs/swarm/map/MapFrame.java:271-282 | the new state and the calls made are those of `Step` for the shrink button |
| MapFrames.MapFrame.OnExpandAxis | gov/usgs/swarm/map/MapFrame.java:292-303 | the new state and the calls made are those of `Step` for the expand button |
| MapFrames.MapFrame.Tick | gov/usgs/swarm/map/MapFrame.java:367-387 | one pass of the update loop: the new state and the calls made are those of `Step` for a tick |

## Left out

- Drawing: `draw`, `drawPopup`, `drawLegend` and `generatePopupText` are left out. The colour and size rules they apply are modelled; the Swing painting is not.
- Projection arithmetic: `GeoRange.contains`, `Projection.forward`, the projected extents and the pixel arithmetic of `mouseMoved` (lines 369-390) are the opaque `Viewport` functions. The model keeps only the `(int)` casts' results and the rectangle test. A null range and a null projection are merged into one `None` view, since both make `mouseMoved` return false.
- The bounding box that `add` computes and the recentring of the map frame (lines 412-427) are left out. They only affect the view.
- Threads: the feed polling of `QuakemlSource`, the ConcurrentHashMap behaviour of the event maps under concurrent readers, `setVisible` and the refresh timer are left out. Each modelled operation runs alone.
- Hypocenters.HypocenterLayer.constructor: a source URL that does not parse throws `MalformedURLException` out of the constructor. The model's constructor requires a source that is absent or parseable, so that failure is not modelled.
- Hypocenters.HypocenterLayer.SettingsChanged: stopping and starting the feed and the repaint requests are left out. Only the effect on the event maps is modelled.
- Hypocenters.DepthColor: depth / 1000 is exact real division and there is no signed zero. Rounding of doubles is not modelled.
- Hypocenters.AgeColor: the age is an unbounded integer. The `long` subtraction cannot overflow for real clock values.
- Channels.Parse: `StationInfo.parseDouble` is not part of this model. The latitude and longitude tokens are kept as unparsed text.
- Channels.StringHash: Dafny characters are Unicode scalar values, whereas Java hashes UTF-16 code units. Strings with characters outside the Basic Multilingual Plane hash differently.
- Channels.EqualsContract: `equals` against an object that is not a `ChannelInfo` (false in Java) has no counterpart. Only channel informations are compared.
- The remaining `ChannelInfo` getters are left out; they return fields unchanged. `getGroups` is left out too; it returns an empty list.
- MapFrame: the Swing user interface, the options button (its action is empty), the zoom in and out buttons, the map-back button (`mapPop`, a map view history rather than a time one), the go-to button (its action is empty), `setView`, `setStatusText`, the key bindings and the thread start are left out. `run`'s endless loop and its one-second sleep are one `Tick` per pass, with visibility and the current time as arguments.
- `SeismicDataSource` and `Magnitude` are context only and are not modelled. A magnitude is its `double` value.
