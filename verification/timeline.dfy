/**
 * The pure helpers of the video timeline editor component: the cut list,
 * the seek clamps, the text overlays, overlay visibility, the `m:ss` clock
 * display and the named colour filters. Times are exact reals in seconds.
 */
module Timeline {
  import opened Wrappers
  import Sequences
  import Decimal

  function Min(a: real, b: real): real {
    if a <= b then a else b
  }

  function Max(a: real, b: real): real {
    if a >= b then a else b
  }

  // ---------------------------------------------------------------- cuts

  /** The comparator `(a, b) => a - b`, as an ordering. */
  function Ascending(): (real, real) -> bool {
    (a: real, b: real) => a <= b
  }

  /** The cut list's invariant: ascending with no repeated time. */
  predicate StrictlyIncreasing(cuts: seq<real>) {
    forall i, j :: 0 <= i < j < |cuts| ==> cuts[i] < cuts[j]
  }

  /** `addCut`: unless `t` is already a cut, the cuts plus `t`, sorted ascending. */
  function AddCut(cuts: seq<real>, t: real): (r: seq<real>)
    ensures t in r
    ensures t in cuts ==> r == cuts
    ensures t !in cuts ==> multiset(r) == multiset(cuts) + multiset{t}
    ensures t !in cuts ==> Sequences.SortedBy(r, Ascending())
  {
    if t in cuts then cuts
    else
      var r := Sequences.Sort(cuts + [t], Ascending());
      assert t in multiset(r);
      r
  }

  /** `removeCut`: every cut equal to `t` dropped, the others kept in order. */
  function RemoveCut(cuts: seq<real>, t: real): (r: seq<real>)
    ensures t !in r
    ensures forall c :: c in r <==> c in cuts && c != t
    ensures forall c :: c != t ==> multiset(r)[c] == multiset(cuts)[c]
  {
    var keep := (c: real) => c != t;
    Sequences.FilterCounts(cuts, keep);
    Sequences.Filter(cuts, keep)
  }

  /** No value occurs twice in a strictly increasing sequence. */
  lemma {:induction false} StrictCountsAtMostOne(s: seq<real>)
    requires StrictlyIncreasing(s)
    ensures forall x :: multiset(s)[x] <= 1
  {
    if s != [] {
      assert StrictlyIncreasing(s[1..]);
      StrictCountsAtMostOne(s[1..]);
      assert s == [s[0]] + s[1..];
      assert s[0] !in s[1..];
    }
  }

  /** A value at two positions occurs twice. */
  lemma TwoPositionsTwoCopies(s: seq<real>, i: nat, j: nat)
    requires i < j < |s| && s[i] == s[j]
    ensures multiset(s)[s[i]] >= 2
  {
    assert s == s[..j] + s[j..];
    assert s[i] in s[..j];
    assert s[j] in s[j..];
  }

  /** An ascending sequence with no value twice is strictly increasing. */
  lemma SortedOnceIsStrict(r: seq<real>)
    requires Sequences.SortedBy(r, Ascending())
    requires forall x :: multiset(r)[x] <= 1
    ensures StrictlyIncreasing(r)
  {
    forall i, j | 0 <= i < j < |r| ensures r[i] < r[j] {
      assert Ascending()(r[i], r[j]);
      if r[i] == r[j] {
        TwoPositionsTwoCopies(r, i, j);
        assert false;
      }
    }
  }

  /** `addCut` keeps the cut list ascending and duplicate-free. */
  lemma AddCutKeepsInvariant(cuts: seq<real>, t: real)
    requires StrictlyIncreasing(cuts)
    ensures StrictlyIncreasing(AddCut(cuts, t))
  {
    if t !in cuts {
      StrictCountsAtMostOne(cuts);
      SortedOnceIsStrict(AddCut(cuts, t));
    }
  }

  /** `removeCut` keeps the cut list ascending and duplicate-free. */
  lemma RemoveCutKeepsInvariant(cuts: seq<real>, t: real)
    requires StrictlyIncreasing(cuts)
    ensures StrictlyIncreasing(RemoveCut(cuts, t))
  {
    var below := (a: real, b: real) => a < b;
    assert Sequences.SortedBy(cuts, below);
    Sequences.FilterKeepsSorted(cuts, (c: real) => c != t, below);
  }

  /** The head of a strictly increasing sequence is below every later element. */
  lemma StrictHeadBelowTail(a: seq<real>, x: real)
    requires StrictlyIncreasing(a) && a != [] && x in a[1..]
    ensures a[0] < x
  {
    var k :| 0 <= k < |a[1..]| && a[1..][k] == x;
    assert a[k + 1] == x;
  }

  /** Two strictly increasing sequences with the same values share their tails' values. */
  lemma StrictTailsSameValues(a: seq<real>, b: seq<real>)
    requires StrictlyIncreasing(a) && StrictlyIncreasing(b) && a != [] && b != []
    requires forall x :: x in a <==> x in b
    ensures a[0] == b[0]
    ensures forall x :: x in a[1..] <==> x in b[1..]
  {
    assert a[0] in a && b[0] in b;
    forall x | x in a[1..] ensures x in b[1..] {
      StrictHeadBelowTail(a, x);
      assert x in b;
    }
    forall x | x in b[1..] ensures x in a[1..] {
      StrictHeadBelowTail(b, x);
      assert x in a;
    }
  }

  /** Two strictly increasing sequences holding the same values are equal. */
  lemma {:induction false} StrictSameValuesEqual(a: seq<real>, b: seq<real>)
    requires StrictlyIncreasing(a) && StrictlyIncreasing(b)
    requires forall x :: x in a <==> x in b
    ensures a == b
  {
    assert a != [] ==> a[0] in a;
    assert b != [] ==> b[0] in b;
    if a != [] && b != [] {
      StrictTailsSameValues(a, b);
      assert StrictlyIncreasing(a[1..]) && StrictlyIncreasing(b[1..]);
      StrictSameValuesEqual(a[1..], b[1..]);
      assert a == [a[0]] + a[1..] && b == [b[0]] + b[1..];
    }
  }

  /** Removing a cut just added restores the previous cut list. */
  lemma RemoveUndoesAddCut(cuts: seq<real>, t: real)
    requires StrictlyIncreasing(cuts) && t !in cuts
    ensures RemoveCut(AddCut(cuts, t), t) == cuts
  {
    AddCutKeepsInvariant(cuts, t);
    RemoveCutKeepsInvariant(AddCut(cuts, t), t);
    var r := RemoveCut(AddCut(cuts, t), t);
    forall x ensures x in r <==> x in cuts {
      if x in cuts {
        assert x in multiset(cuts);
        assert x in multiset(AddCut(cuts, t));
      }
      if x in r {
        assert x in multiset(AddCut(cuts, t));
      }
    }
    StrictSameValuesEqual(r, cuts);
  }

  // ---------------------------------------------------------------- seeking

  /**
   * A timeline click: nothing happens while the duration is 0 (not yet
   * loaded); otherwise the click time clamped into [0, duration].
   */
  function ClickSeek(duration: real, clickTime: real): (r: Option<real>)
    ensures r.None? <==> duration == 0.0
    ensures r.Some? ==> 0.0 <= r.value
    ensures r.Some? && duration > 0.0 ==> r.value <= duration
    ensures r.Some? && 0.0 <= clickTime <= duration ==> r.value == clickTime
    // outside the range the click is clamped to the nearer end
    ensures r.Some? && clickTime < 0.0 ==> r.value == 0.0
    ensures r.Some? && duration > 0.0 && clickTime > duration ==> r.value == duration
    ensures r.Some? && duration < 0.0 ==> r.value == 0.0
  {
    if duration == 0.0 then None else Some(Max(0.0, Min(duration, clickTime)))
  }

  /** The back button: ten seconds earlier, not before 0. */
  function SkipBack(currentTime: real): (r: real)
    ensures 0.0 <= r
    ensures r <= currentTime || currentTime < 0.0
    ensures currentTime >= 10.0 ==> r == currentTime - 10.0
    // otherwise it stops at 0
    ensures r == 0.0 || r == currentTime - 10.0
    ensures r >= currentTime - 10.0
  {
    Max(0.0, currentTime - 10.0)
  }

  /** The forward button: ten seconds later, not past the end. */
  function SkipForward(currentTime: real, duration: real): (r: real)
    ensures r <= duration
    ensures r <= currentTime + 10.0
    ensures currentTime + 10.0 <= duration ==> r == currentTime + 10.0
    // otherwise it stops at the end
    ensures r == duration || r == currentTime + 10.0
  {
    Min(duration, currentTime + 10.0)
  }

  /** Both skips keep a position inside [0, duration] inside it. */
  lemma SkipsStayInRange(currentTime: real, duration: real)
    requires 0.0 <= currentTime <= duration
    ensures 0.0 <= SkipBack(currentTime) <= duration
    ensures 0.0 <= SkipForward(currentTime, duration) <= duration
  {
  }

  // ---------------------------------------------------------------- text overlays

  datatype Overlay = Overlay(id: string, text: string, x: real, y: real, size: real, color: string,
                             startTime: real, endTime: real)

  /** `Partial<Overlay>`: the fields an update sets. */
  datatype OverlayPatch = OverlayPatch(id: Option<string>, text: Option<string>, x: Option<real>,
                                       y: Option<real>, size: Option<real>, color: Option<string>,
                                       startTime: Option<real>, endTime: Option<real>)

  /** `{...overlay, ...updates}`. */
  function Patch(o: Overlay, p: OverlayPatch): Overlay {
    Overlay(p.id.GetOr(o.id), p.text.GetOr(o.text), p.x.GetOr(o.x), p.y.GetOr(o.y), p.size.GetOr(o.size),
            p.color.GetOr(o.color), p.startTime.GetOr(o.startTime), p.endTime.GetOr(o.endTime))
  }

  /** Applying the same update twice is applying it once. */
  lemma PatchIdempotent(o: Overlay, p: OverlayPatch)
    ensures Patch(Patch(o, p), p) == Patch(o, p)
  {
  }

  /** The overlay `addTextOverlay` creates at the playhead. */
  function NewOverlay(id: string, currentTime: real, duration: real): (o: Overlay)
    ensures o.id == id && o.startTime == currentTime
    ensures o.endTime <= currentTime + 5.0 && o.endTime <= duration
    ensures o.endTime == currentTime + 5.0 || o.endTime == duration
    ensures 0.0 <= currentTime <= duration ==> o.startTime <= o.endTime
    // the fixed look of a new overlay
    ensures o.text == "Sample Text" && o.color == "#ffffff"
    ensures o.x == 50.0 && o.y == 100.0 && o.size == 24.0
  {
    Overlay(id, "Sample Text", 50.0, 100.0, 24.0, "#ffffff", currentTime, Min(currentTime + 5.0, duration))
  }

  /** `addTextOverlay`: the new overlay appended after the existing ones. */
  function AddTextOverlay(overlays: seq<Overlay>, id: string, currentTime: real, duration: real): (r: seq<Overlay>)
    ensures |r| == |overlays| + 1
    ensures r[..|overlays|] == overlays
    ensures r[|overlays|] == NewOverlay(id, currentTime, duration)
  {
    overlays + [NewOverlay(id, currentTime, duration)]
  }

  /** `updateTextOverlay`: every overlay with the id patched, the rest as they were. */
  function UpdateTextOverlay(overlays: seq<Overlay>, id: string, p: OverlayPatch): (r: seq<Overlay>)
    ensures |r| == |overlays|
    ensures forall i :: 0 <= i < |overlays| && overlays[i].id == id ==> r[i] == Patch(overlays[i], p)
    ensures forall i :: 0 <= i < |overlays| && overlays[i].id != id ==> r[i] == overlays[i]
  {
    if overlays == [] then []
    else
      var head := if overlays[0].id == id then Patch(overlays[0], p) else overlays[0];
      [head] + UpdateTextOverlay(overlays[1..], id, p)
  }

  /** `removeTextOverlay`: every overlay with the id dropped, the rest in order. */
  function RemoveTextOverlay(overlays: seq<Overlay>, id: string): (r: seq<Overlay>)
    ensures forall o :: o in r <==> o in overlays && o.id != id
  {
    Sequences.Filter(overlays, (o: Overlay) => o.id != id)
  }

  /** Removal keeps every overlay with another id as often as it occurred. */
  lemma RemoveTextOverlayCounts(overlays: seq<Overlay>, id: string)
    ensures forall o: Overlay :: o.id != id ==> multiset(RemoveTextOverlay(overlays, id))[o] == multiset(overlays)[o]
  {
    Sequences.FilterCounts(overlays, (o: Overlay) => o.id != id);
  }

  /** Removing the overlay just added, under a fresh id, restores the previous list. */
  lemma RemoveUndoesAddTextOverlay(overlays: seq<Overlay>, id: string, currentTime: real, duration: real)
    requires forall o :: o in overlays ==> o.id != id
    ensures RemoveTextOverlay(AddTextOverlay(overlays, id, currentTime, duration), id) == overlays
  {
    var keep := (o: Overlay) => o.id != id;
    var added := [NewOverlay(id, currentTime, duration)];
    Sequences.FilterAppend(overlays, added, keep);
    Sequences.FilterKeepsAll(overlays, keep);
    assert Sequences.Filter(added, keep) == [] by {
      assert added[1..] == [];
    }
  }

  /** An update that leaves the id alone is invisible once that id is removed. */
  lemma {:induction false} RemoveAfterUpdate(overlays: seq<Overlay>, id: string, p: OverlayPatch)
    requires p.id.None?
    ensures RemoveTextOverlay(UpdateTextOverlay(overlays, id, p), id) == RemoveTextOverlay(overlays, id)
  {
    if overlays != [] {
      var keep := (o: Overlay) => o.id != id;
      var u := UpdateTextOverlay(overlays, id, p);
      RemoveAfterUpdate(overlays[1..], id, p);
      assert u[1..] == UpdateTextOverlay(overlays[1..], id, p);
      assert u[0].id == overlays[0].id;
      assert keep(u[0]) ==> u[0] == overlays[0];
    }
  }

  /** The overlay is drawn at `currentTime`: both ends inclusive. */
  predicate Visible(o: Overlay, currentTime: real) {
    currentTime >= o.startTime && currentTime <= o.endTime
  }

  /** The overlays drawn on the frame at `currentTime`, in drawing order. */
  function VisibleOverlays(overlays: seq<Overlay>, currentTime: real): (r: seq<Overlay>)
    ensures forall o :: o in r <==> o in overlays && o.startTime <= currentTime <= o.endTime
  {
    Sequences.Filter(overlays, (o: Overlay) => Visible(o, currentTime))
  }

  /** An overlay added at a playhead inside the video is drawn right away. */
  lemma NewOverlayVisibleAtPlayhead(overlays: seq<Overlay>, id: string, currentTime: real, duration: real)
    requires 0.0 <= currentTime <= duration
    ensures NewOverlay(id, currentTime, duration) in
            VisibleOverlays(AddTextOverlay(overlays, id, currentTime, duration), currentTime)
  {
    var r := AddTextOverlay(overlays, id, currentTime, duration);
    assert r[|overlays|] in r;
  }

  // ---------------------------------------------------------------- clock display

  /** `String.prototype.padStart(2, "0")`. */
  function PadStart2(s: string): (r: string)
    ensures |s| >= 2 ==> r == s
    ensures |r| == if |s| >= 2 then |s| else 2
  {
    if |s| == 0 then "00" else if |s| == 1 then "0" + s else s
  }

  /** `formatTime`: `Math.floor(t / 60)`, a colon, then `Math.floor(t % 60)` padded to two places. */
  function FormatTime(t: real): string {
    var minutes := (t / 60.0).Floor;
    var remainder := t - 60.0 * Decimal.Trunc(t / 60.0) as real;  // JavaScript `%` truncates
    Decimal.IntToString(minutes) + ":" + PadStart2(Decimal.IntToString(remainder.Floor))
  }

  /** The two-digit rendering of a seconds value below 60. */
  function TwoDigits(sec: nat): string
    requires sec < 60
  {
    [Decimal.DigitChar(sec / 10), Decimal.DigitChar(sec % 10)]
  }

  /**
   * For a non-negative time the display is whole minutes, a colon and the
   * remaining whole seconds as two digits in 00..59.
   */
  lemma FormatTimeFields(t: real)
    requires t >= 0.0
    ensures var minutes := (t / 60.0).Floor;
            var seconds := t.Floor - 60 * minutes;
            && 0 <= minutes && 0 <= seconds < 60
            && FormatTime(t) == Decimal.NatToString(minutes) + ":" + TwoDigits(seconds)
  {
    var minutes := (t / 60.0).Floor;
    var remainder := t - 60.0 * Decimal.Trunc(t / 60.0) as real;
    assert Decimal.Trunc(t / 60.0) == minutes;
    var seconds := t.Floor - 60 * minutes;
    assert remainder.Floor == seconds;
    var digits := Decimal.NatToString(seconds);
    if seconds < 10 {
      assert digits == [Decimal.DigitChar(seconds)];
      assert PadStart2(digits) == TwoDigits(seconds);
    } else {
      assert digits == Decimal.NatToString(seconds / 10) + [Decimal.DigitChar(seconds % 10)];
      assert Decimal.NatToString(seconds / 10) == [Decimal.DigitChar(seconds / 10)];
      assert PadStart2(digits) == TwoDigits(seconds);
    }
  }

  /** The seconds an `m:ss` display stands for, once split at its colon. */
  function ClockValue(m: string, ss: string): Option<int> {
    if Decimal.AllDigits(m) && Decimal.AllDigits(ss) then
      Some(Decimal.ParseDigits(m) * 60 + Decimal.ParseDigits(ss))
    else None
  }

  /** Reads an `m:ss` display back as a number of seconds. */
  function ParseClock(s: string): Option<int> {
    if |s| < 4 || s[|s| - 3] != ':' then None
    else ClockValue(s[..|s| - 3], s[|s| - 2..])
  }

  /** Two-digit seconds read back as the value they render. */
  lemma ParseTwoDigits(seconds: nat)
    requires seconds < 60
    ensures Decimal.AllDigits(TwoDigits(seconds)) && Decimal.ParseDigits(TwoDigits(seconds)) == seconds
  {
    var d := TwoDigits(seconds);
    assert d[..1] == [d[0]];
    assert [d[0]][..0] == [];
    assert Decimal.ParseDigits(d[..1]) == seconds / 10;
  }

  /** A display made of digits, a colon and two digits splits back at its colon. */
  lemma ParseClockSplit(m: string, d: string)
    requires |m| >= 1 && |d| == 2
    ensures ParseClock(m + ":" + d) == ClockValue(m, d)
  {
    var s := m + ":" + d;
    assert s[..|s| - 3] == m && s[|s| - 2..] == d && s[|s| - 3] == ':';
  }

  /** Any `m:ss` display built from whole minutes and two-digit seconds reads back. */
  lemma ParseClockOfFields(minutes: nat, seconds: nat)
    requires seconds < 60
    ensures ParseClock(Decimal.NatToString(minutes) + ":" + TwoDigits(seconds)) == Some(minutes * 60 + seconds)
  {
    var m := Decimal.NatToString(minutes);
    var d := TwoDigits(seconds);
    Decimal.ParseNatToString(minutes);
    ParseTwoDigits(seconds);
    ParseClockSplit(m, d);
  }

  /** The display of a non-negative time reads back as its whole number of seconds. */
  lemma FormatTimeRoundTrip(t: real)
    requires t >= 0.0
    ensures ParseClock(FormatTime(t)) == Some(t.Floor)
  {
    FormatTimeFields(t);
    var minutes := (t / 60.0).Floor;
    var seconds := t.Floor - 60 * minutes;
    var shown := Decimal.NatToString(minutes) + ":" + TwoDigits(seconds);
    assert FormatTime(t) == shown;
    ParseClockOfFields(minutes, seconds);
    assert minutes * 60 + seconds == t.Floor;
  }

  // ---------------------------------------------------------------- colour filters

  /** The named filters the editor offers besides "none". */
  const NamedFilters: set<string> := {"sepia", "grayscale", "invert", "vintage", "cool", "warm"}

  /** `getFilterEffect`: the CSS filter functions of a named filter, empty for any other name. */
  function FilterEffect(name: string): (css: string)
    ensures css != "" <==> name in NamedFilters
  {
    match name
    case "sepia" => "sepia(100%)"
    case "grayscale" => "grayscale(100%)"
    case "invert" => "invert(100%)"
    case "vintage" => "sepia(50%) contrast(120%) brightness(90%)"
    case "cool" => "hue-rotate(180deg) saturate(120%)"
    case "warm" => "hue-rotate(30deg) saturate(110%)"
    case _ => ""
  }

  /** The filter part the frame's filter string ends with: nothing for "none". */
  function SelectedFilterSuffix(selected: string): (css: string)
    ensures css != "" <==> selected in NamedFilters
  {
    if selected != "none" then FilterEffect(selected) else ""
  }
}
