/**
 * The cell-value extractor of code/import.py: `import_tarfile` keeps the
 * `Z98` members of a tarball, computes the bounding window of the target
 * cells, reads that window of each member's first band, gathers one value
 * per target cell and stamps every row with the member's issuance and valid
 * times parsed from its band tags; and the `HAS` order-number check of
 * `main`.
 *
 * A tar member is given as its name, its first band as a 2-D array (rows by
 * columns of the reference grid) and its band tags. Downloading,
 * extraction, GRIB decoding and writing parquet files are not modelled: the
 * rows a member would be written with are returned instead.
 */
module TarImport {
  import opened Wrappers
  import opened Lexing
  import opened ReferenceGrid
  import opened Observations

  datatype ImportError =
    | NotAnOrderNumber(url: string)      // ValueError('url should start with HAS, ...')
    | WindowUndefined(member: string)    // the target grid is empty, so min/max are NaN
    | WindowOutOfRange(member: string)   // the windowed read falls outside the band
    | MissingTag(member: string, tag: string)                // KeyError on dataset.tags(1)[tag]
    | MalformedTag(member: string, tag: string, value: string) // re.match(...) is None
    | TimestampOutOfRange(member: string, tag: string)       // datetime.utcfromtimestamp beyond year 9999

  /**
   * One tarball member: its name, its first band (a sequence of raster rows,
   * each a sequence of values by column) and that band's tags.
   */
  datatype Member = Member(name: string, band: seq<seq<real>>, tags: map<string, string>)

  // ---------------------------------------------------------------------
  // Member filter

  /** Python's `s[lo:hi]` for 0 <= lo <= hi: both bounds are clipped to the length. */
  function PySlice(s: string, lo: nat, hi: nat): string
    requires lo <= hi
  {
    var h := if hi <= |s| then hi else |s|;
    var l := if lo <= h then lo else h;
    s[l..h]
  }

  /** `x[3:6] == 'Z98'`: the 1-3 day forecast members. */
  predicate IsZ98(name: string) {
    PySlice(name, 3, 6) == "Z98"
  }

  /** A name shorter than six characters never matches: its slice is too short. */
  lemma IsZ98Exactly(name: string)
    ensures IsZ98(name) <==> |name| >= 6 && name[3..6] == "Z98"
  {
  }

  /** `[x for x in tf.getnames() if x[3:6] == 'Z98']`, on the members themselves. */
  function Z98Members(members: seq<Member>): (r: seq<Member>)
    ensures |r| <= |members|
    ensures forall i :: 0 <= i < |r| ==> r[i] in members && IsZ98(r[i].name)
    ensures forall i :: 0 <= i < |members| && IsZ98(members[i].name) ==> members[i] in r
  {
    if members == [] then []
    else
      var n := |members| - 1;
      var init := Z98Members(members[..n]);
      assert forall i :: 0 <= i < n ==> members[..n][i] == members[i];
      if IsZ98(members[n].name) then init + [members[n]] else init
  }

  /** The comprehension keeps the members' order: filtering a concatenation filters each part in turn. */
  lemma {:induction false} Z98MembersAppend(a: seq<Member>, b: seq<Member>)
    ensures Z98Members(a + b) == Z98Members(a) + Z98Members(b)
  {
    if b == [] {
      assert a + b == a;
    } else {
      var init, last := b[..|b| - 1], b[|b| - 1];
      assert b == init + [last];
      Z98MembersAppend(a, init);
      Z98MembersAppendStep(a, init, last);
    }
  }

  /** One more member at the end of the second part. */
  lemma Z98MembersAppendStep(a: seq<Member>, init: seq<Member>, last: Member)
    requires Z98Members(a + init) == Z98Members(a) + Z98Members(init)
    ensures Z98Members(a + (init + [last])) == Z98Members(a) + Z98Members(init + [last])
  {
    var t := if IsZ98(last.name) then [last] else [];
    assert a + (init + [last]) == (a + init) + [last];
    Z98MembersSnoc(a + init, last);
    Z98MembersSnoc(init, last);
    ConcatAssociative(Z98Members(a), Z98Members(init), t);
  }

  /** Proof step for `Z98MembersAppendStep`: concatenation regroups freely. */
  lemma ConcatAssociative(x: seq<Member>, y: seq<Member>, z: seq<Member>)
    ensures (x + y) + z == x + (y + z)
  {
  }

  lemma Z98MembersSnoc(s: seq<Member>, m: Member)
    ensures Z98Members(s + [m]) == if IsZ98(m.name) then Z98Members(s) + [m] else Z98Members(s)
  {
    assert (s + [m])[..|s|] == s;
  }

  /** Each `Z98` member is kept as many times as it occurs, and any other member not at all. */
  lemma {:induction false} Z98MembersCounts(members: seq<Member>, m: Member)
    ensures multiset(Z98Members(members))[m] == if IsZ98(m.name) then multiset(members)[m] else 0
  {
    if members != [] {
      var n := |members| - 1;
      Z98MembersCounts(members[..n], m);
      assert members == members[..n] + [members[n]];
      Z98MembersSnoc(members[..n], members[n]);
    }
  }

  // ---------------------------------------------------------------------
  // Bounding window

  function MinX(cells: seq<Cell>): (m: int)
    requires cells != []
    ensures forall i :: 0 <= i < |cells| ==> m <= cells[i].x
    ensures exists i :: 0 <= i < |cells| && cells[i].x == m
  {
    if |cells| == 1 then cells[0].x
    else
      var rest := MinX(cells[1..]);
      assert forall i :: 1 <= i < |cells| ==> cells[i] == cells[1..][i - 1];
      if cells[0].x <= rest then cells[0].x else rest
  }

  function MaxX(cells: seq<Cell>): (m: int)
    requires cells != []
    ensures forall i :: 0 <= i < |cells| ==> cells[i].x <= m
    ensures exists i :: 0 <= i < |cells| && cells[i].x == m
  {
    if |cells| == 1 then cells[0].x
    else
      var rest := MaxX(cells[1..]);
      assert forall i :: 1 <= i < |cells| ==> cells[i] == cells[1..][i - 1];
      if cells[0].x >= rest then cells[0].x else rest
  }

  function MinY(cells: seq<Cell>): (m: int)
    requires cells != []
    ensures forall i :: 0 <= i < |cells| ==> m <= cells[i].y
    ensures exists i :: 0 <= i < |cells| && cells[i].y == m
  {
    if |cells| == 1 then cells[0].y
    else
      var rest := MinY(cells[1..]);
      assert forall i :: 1 <= i < |cells| ==> cells[i] == cells[1..][i - 1];
      if cells[0].y <= rest then cells[0].y else rest
  }

  function MaxY(cells: seq<Cell>): (m: int)
    requires cells != []
    ensures forall i :: 0 <= i < |cells| ==> cells[i].y <= m
    ensures exists i :: 0 <= i < |cells| && cells[i].y == m
  {
    if |cells| == 1 then cells[0].y
    else
      var rest := MaxY(cells[1..]);
      assert forall i :: 1 <= i < |cells| ==> cells[i] == cells[1..][i - 1];
      if cells[0].y >= rest then cells[0].y else rest
  }

  /** A rasterio `Window`: row and column offsets, height (rows) and width (columns). */
  datatype Window = Window(rowOff: int, colOff: int, height: int, width: int)

  /**
   * `Window.from_slices((minx, maxx + 1), (miny, maxy + 1))`; undefined
   * (the minima and maxima of an empty column are NaN) when there are no
   * targets.
   */
  function TargetWindow(targets: seq<Cell>): (r: Option<Window>)
    ensures r.Some? <==> targets != []
    ensures r.Some? ==> WindowCovers(r.value, targets)
  {
    if targets == [] then None
    else
      var minx, miny := MinX(targets), MinY(targets);
      Some(Window(minx, miny, MaxX(targets) + 1 - minx, MaxY(targets) + 1 - miny))
  }

  /**
   * The window of a non-empty target list covers rows minx..maxx and columns
   * miny..maxy inclusive, and every target's window-relative index lies
   * inside it.
   */
  lemma TargetWindowCovers(targets: seq<Cell>)
    ensures TargetWindow(targets).Some? <==> targets != []
    ensures targets != [] ==>
      var w := TargetWindow(targets).value;
      && w.rowOff == MinX(targets) && w.colOff == MinY(targets)
      && w.height == MaxX(targets) - MinX(targets) + 1 && w.width == MaxY(targets) - MinY(targets) + 1
      && forall i :: 0 <= i < |targets| ==>
           0 <= targets[i].x - w.rowOff < w.height && 0 <= targets[i].y - w.colOff < w.width
  {
  }

  /** The window is the smallest that covers the targets: a target lies on each of its four edges. */
  lemma TargetWindowTight(targets: seq<Cell>)
    requires targets != []
    ensures var w := TargetWindow(targets).value;
      && (exists i :: 0 <= i < |targets| && targets[i].x == w.rowOff)
      && (exists i :: 0 <= i < |targets| && targets[i].x == w.rowOff + w.height - 1)
      && (exists i :: 0 <= i < |targets| && targets[i].y == w.colOff)
      && (exists i :: 0 <= i < |targets| && targets[i].y == w.colOff + w.width - 1)
  {
  }

  /** The window lies inside the band, so a non-boundless read succeeds. */
  predicate WindowInside(w: Window, band: seq<seq<real>>) {
    && 0 <= w.rowOff && 0 <= w.height && w.rowOff + w.height <= |band|
    && 0 <= w.colOff && 0 <= w.width
    && forall r :: w.rowOff <= r < w.rowOff + w.height ==> w.colOff + w.width <= |band[r]|
  }

  /** `dataset.read(1, window=window)`: the window of the band, `height` rows of `width` values. */
  function ReadWindow(band: seq<seq<real>>, w: Window): (arr: seq<seq<real>>)
    requires WindowInside(w, band)
    ensures |arr| == w.height
    ensures forall i :: 0 <= i < w.height ==> |arr[i]| == w.width
    ensures forall i, j :: 0 <= i < w.height && 0 <= j < w.width ==> arr[i][j] == band[w.rowOff + i][w.colOff + j]
  {
    seq(w.height, i requires 0 <= i < w.height =>
      seq(w.width, j requires 0 <= j < w.width => band[w.rowOff + i][w.colOff + j]))
  }

  // ---------------------------------------------------------------------
  // Band-tag timestamps

  /**
   * `re.match(r'^(\d+)\s*sec\s*UTC$', s).group(1)` read with `int`; None
   * where the match fails. The greedy runs never need to give characters
   * back: the character after the digits is whitespace or `s`, and the one
   * after each whitespace run is `s` or `U`. `$` also matches just before a
   * final newline.
   */
  function ParseTimeTag(s: string): (r: Option<nat>)
    ensures r.Some? ==> IsTimeTag(s, r.value)
  {
    var i := DigitsEnd(s, 0);
    if i == 0 then None
    else
      var j := SpacesEnd(s, i);
      if !SecAt(s, j) then None
      else if !UtcEndAt(s, SpacesEnd(s, j + 3)) then None
      else
        assert AllDigits(s[..i]);
        assert TagShapeAt(s, i, j, SpacesEnd(s, j + 3), DigitsValue(s[..i]));
        Some(DigitsValue(s[..i]))
  }

  /** `sec` at position j. */
  predicate SecAt(s: string, j: nat) {
    j + 3 <= |s| && s[j] == 's' && s[j + 1] == 'e' && s[j + 2] == 'c'
  }

  /** `UTC$` at position k: `UTC` ends the string, or is followed only by a final newline. */
  predicate UtcEndAt(s: string, k: nat) {
    && k + 3 <= |s| && s[k] == 'U' && s[k + 1] == 'T' && s[k + 2] == 'C'
    && (|s| == k + 3 || (|s| == k + 4 && s[k + 3] == '\n'))
  }

  /**
   * The shape the pattern accepts, split at explicit positions: digits in
   * s[..i], whitespace in s[i..j], `sec` at j, whitespace up to k, then
   * `UTC` and at most a final newline.
   */
  ghost predicate TagShapeAt(s: string, i: nat, j: nat, k: nat, n: nat) {
    && 0 < i <= j && j + 3 <= k <= |s|
    && AllDigits(s[..i]) && DigitsValue(s[..i]) == n
    && (forall p :: i <= p < j ==> IsSpace(s[p]))
    && SecAt(s, j)
    && (forall p :: j + 3 <= p < k ==> IsSpace(s[p]))
    && UtcEndAt(s, k)
  }

  ghost predicate IsTimeTag(s: string, n: nat) {
    exists i: nat, j: nat, k: nat :: TagShapeAt(s, i, j, k, n)
  }

  /** The parser accepts exactly the strings of the pattern's shape, with their number. */
  lemma TimeTagExactly(s: string, n: nat)
    ensures ParseTimeTag(s) == Some(n) <==> IsTimeTag(s, n)
  {
    if IsTimeTag(s, n) {
      var i: nat, j: nat, k: nat :| TagShapeAt(s, i, j, k, n);
      TimeTagComplete(s, i, j, k, n);
    }
  }

  /** Every string of the pattern's shape is accepted, with its number. */
  lemma TimeTagComplete(s: string, i: nat, j: nat, k: nat, n: nat)
    requires TagShapeAt(s, i, j, k, n)
    ensures ParseTimeTag(s) == Some(n)
  {
    assert forall p :: 0 <= p < i ==> IsDigit(s[p]) by {
      forall p | 0 <= p < i ensures IsDigit(s[p]) { assert s[..i][p] == s[p]; }
    }
    DigitsEndExactly(s, 0, i);
    SpacesEndExactly(s, i, j);
    SpacesEndExactly(s, j + 3, k);
  }

  /** A tag written as `<seconds> sec UTC` parses back to its seconds. */
  lemma TimeTagRoundTrip(n: nat)
    ensures ParseTimeTag(NatToDigits(n) + " sec UTC") == Some(n)
  {
    var digits := NatToDigits(n);
    var s := digits + " sec UTC";
    var i := |digits|;
    NatToDigitsRoundTrip(n);
    assert s[..i] == digits;
    assert AllDigits(s[..i]) && DigitsValue(s[..i]) == n;
    assert forall p :: i <= p < i + 1 ==> IsSpace(s[p]) by {
      assert s[i] == ' ';
    }
    assert SecAt(s, i + 1) by {
      assert s[i + 1] == 's' && s[i + 2] == 'e' && s[i + 3] == 'c';
    }
    assert forall p :: i + 4 <= p < i + 5 ==> IsSpace(s[p]) by {
      assert s[i + 4] == ' ';
    }
    assert UtcEndAt(s, i + 5) by {
      assert |s| == i + 8 && s[i + 5] == 'U' && s[i + 6] == 'T' && s[i + 7] == 'C';
    }
    TimeTagComplete(s, i, i + 1, i + 5, n);
  }

  /** The largest second `datetime.utcfromtimestamp` accepts: 9999-12-31T23:59:59. */
  const MaxTimestamp: nat := 253402300799

  /** `datetime.utcfromtimestamp(int(re.match(...).group(1)))` of band tag `tag`. */
  function TagTimestamp(m: Member, tag: string): (r: Result<nat, ImportError>)
    ensures r.Success? <==> tag in m.tags && ParseTimeTag(m.tags[tag]).Some? && ParseTimeTag(m.tags[tag]).value <= MaxTimestamp
    ensures r.Success? ==> IsTimeTag(m.tags[tag], r.value)
  {
    if tag !in m.tags then Failure(MissingTag(m.name, tag))
    else
      match ParseTimeTag(m.tags[tag])
      case None => Failure(MalformedTag(m.name, tag, m.tags[tag]))
      case Some(n) =>
        TimeTagExactly(m.tags[tag], n);
        if n > MaxTimestamp then Failure(TimestampOutOfRange(m.name, tag)) else Success(n)
  }

  // ---------------------------------------------------------------------
  // One member

  /**
   * The body of the member loop: read the window, gather the value at each
   * target's window-relative index (`adj_x`, `adj_y`), then stamp the rows
   * with the two band-tag times; or the first error in source order
   * (window, then `GRIB_REF_TIME`, then `GRIB_VALID_TIME`).
   */
  function MemberOutcome(m: Member, targets: seq<Cell>, window: Option<Window>): (r: Result<seq<Observation>, ImportError>)
    requires window == TargetWindow(targets)
    ensures r.Success? <==>
      && targets != [] && WindowInside(window.value, m.band)
      && TagTimestamp(m, "GRIB_REF_TIME").Success? && TagTimestamp(m, "GRIB_VALID_TIME").Success?
    ensures targets == [] ==> r == Failure(WindowUndefined(m.name))
    ensures r.Success? ==> |r.value| == |targets|
  {
    match window
    case None => Failure(WindowUndefined(m.name))
    case Some(w) =>
      if !WindowInside(w, m.band) then Failure(WindowOutOfRange(m.name))
      else
        TargetWindowCovers(targets);
        StampRows(m, targets, Gather(ReadWindow(m.band, w), targets, w))
  }

  /** The window-relative indices of every target fall inside `arr`. */
  predicate TargetsInWindow(arr: seq<seq<real>>, targets: seq<Cell>, w: Window) {
    forall i :: 0 <= i < |targets| ==>
      0 <= targets[i].x - w.rowOff < |arr| && 0 <= targets[i].y - w.colOff < |arr[targets[i].x - w.rowOff]|
  }

  /** `data[grid['adj_x'], grid['adj_y']]`: one value per target, read from the window. */
  function Gather(arr: seq<seq<real>>, targets: seq<Cell>, w: Window): (values: seq<real>)
    requires TargetsInWindow(arr, targets, w)
    ensures |values| == |targets|
  {
    seq(|targets|, i requires 0 <= i < |targets| => arr[targets[i].x - w.rowOff][targets[i].y - w.colOff])
  }

  /** The rows of one member: the gathered values stamped with the two band-tag times. */
  function StampRows(m: Member, targets: seq<Cell>, values: seq<real>): (r: Result<seq<Observation>, ImportError>)
    requires |values| == |targets|
    ensures var fcst, valid := TagTimestamp(m, "GRIB_REF_TIME"), TagTimestamp(m, "GRIB_VALID_TIME");
      && (r.Success? <==> fcst.Success? && valid.Success?)
      && (r.Failure? ==> r.error == if fcst.Failure? then fcst.error else valid.error)
      && (r.Success? ==> |r.value| == |targets| && forall i :: 0 <= i < |targets| ==>
            r.value[i] == Observation(targets[i].x, targets[i].y, values[i], fcst.value, valid.value))
  {
    match TagTimestamp(m, "GRIB_REF_TIME")
    case Failure(e) => Failure(e)
    case Success(fcst) =>
      match TagTimestamp(m, "GRIB_VALID_TIME")
      case Failure(e) => Failure(e)
      case Success(valid) =>
        Success(seq(|targets|, i requires 0 <= i < |targets| =>
          Observation(targets[i].x, targets[i].y, values[i], fcst, valid)))
  }

  /** Every target is a cell of the band. */
  predicate TargetsInBand(band: seq<seq<real>>, targets: seq<Cell>) {
    forall i :: 0 <= i < |targets| ==> 0 <= targets[i].x < |band| && 0 <= targets[i].y < |band[targets[i].x]|
  }

  /** Every target's window-relative index lies inside the window. */
  predicate WindowCovers(w: Window, targets: seq<Cell>) {
    forall i :: 0 <= i < |targets| ==>
      0 <= targets[i].x - w.rowOff < w.height && 0 <= targets[i].y - w.colOff < w.width
  }

  /**
   * Reading a window that covers the targets and gathering at the
   * window-relative indices gives, for every target, the value of the full
   * band at that target.
   */
  lemma GatherFromWindow(band: seq<seq<real>>, targets: seq<Cell>, w: Window)
    requires WindowInside(w, band) && WindowCovers(w, targets)
    ensures TargetsInWindow(ReadWindow(band, w), targets, w)
    ensures TargetsInBand(band, targets)
    ensures forall i :: 0 <= i < |targets| ==>
      Gather(ReadWindow(band, w), targets, w)[i] == band[targets[i].x][targets[i].y]
  {
    var arr := ReadWindow(band, w);
    assert TargetsInWindow(arr, targets, w);
    var values := Gather(arr, targets, w);
    forall i | 0 <= i < |targets|
      ensures 0 <= targets[i].x < |band| && 0 <= targets[i].y < |band[targets[i].x]|
      ensures values[i] == band[targets[i].x][targets[i].y]
    {
      var r, c := targets[i].x - w.rowOff, targets[i].y - w.colOff;
      assert values[i] == arr[r][c];
    }
  }

  /** Stamped rows keep the values in target order and carry the two tag times. */
  lemma StampRowsShape(m: Member, targets: seq<Cell>, values: seq<real>)
    requires |values| == |targets|
    ensures var r := StampRows(m, targets, values);
      r.Success? ==>
        && "GRIB_REF_TIME" in m.tags && "GRIB_VALID_TIME" in m.tags
        && ParseTimeTag(m.tags["GRIB_REF_TIME"]).Some? && ParseTimeTag(m.tags["GRIB_VALID_TIME"]).Some?
        && |r.value| == |targets|
        && forall i :: 0 <= i < |targets| ==>
             r.value[i] == Observation(targets[i].x, targets[i].y, values[i],
                                       ParseTimeTag(m.tags["GRIB_REF_TIME"]).value,
                                       ParseTimeTag(m.tags["GRIB_VALID_TIME"]).value)
  {
  }

  /**
   * A member that imports yields one row per target, in target order,
   * carrying the target's cell and the value of the full band at that cell
   * (the windowed read and the window-relative gather cancel out); every
   * row carries the numbers of the member's two well-formed time tags,
   * within the range `utcfromtimestamp` accepts.
   */
  lemma MemberRows(m: Member, targets: seq<Cell>)
    ensures var r := MemberOutcome(m, targets, TargetWindow(targets));
      r.Success? ==>
        && targets != []
        && TargetsInBand(m.band, targets)
        && "GRIB_REF_TIME" in m.tags && "GRIB_VALID_TIME" in m.tags
        && ParseTimeTag(m.tags["GRIB_REF_TIME"]).Some? && ParseTimeTag(m.tags["GRIB_REF_TIME"]).value <= MaxTimestamp
        && ParseTimeTag(m.tags["GRIB_VALID_TIME"]).Some? && ParseTimeTag(m.tags["GRIB_VALID_TIME"]).value <= MaxTimestamp
        && |r.value| == |targets|
        && forall i :: 0 <= i < |targets| ==>
             r.value[i] == Observation(targets[i].x, targets[i].y, m.band[targets[i].x][targets[i].y],
                                       ParseTimeTag(m.tags["GRIB_REF_TIME"]).value,
                                       ParseTimeTag(m.tags["GRIB_VALID_TIME"]).value)
  {
    var window := TargetWindow(targets);
    if MemberOutcome(m, targets, window).Success? {
      var w := window.value;
      TargetWindowCovers(targets);
      GatherFromWindow(m.band, targets, w);
      var values := Gather(ReadWindow(m.band, w), targets, w);
      StampRowsShape(m, targets, values);
    }
  }

  // ---------------------------------------------------------------------
  // The target grid and the member loop

  /**
   * The `grid` table handed to `import_tarfile`: its `x` and `y` columns,
   * and the `adj_x`/`adj_y` columns the import adds to it in place.
   */
  class TargetGrid {
    var xs: seq<int>
    var ys: seq<int>
    var adjX: seq<int>
    var adjY: seq<int>

    ghost predicate Valid()
      reads this
    {
      |xs| == |ys|
    }

    /** The target cells, row by row. */
    function Cells(): (cells: seq<Cell>)
      reads this
      requires Valid()
      ensures |cells| == |xs|
    {
      var xs0, ys0 := xs, ys;
      seq(|xs0|, i requires 0 <= i < |xs0| => Cell(xs0[i], ys0[i]))
    }

    constructor (cells: seq<Cell>)
      ensures Valid() && Cells() == cells && adjX == [] && adjY == []
    {
      xs := seq(|cells|, i requires 0 <= i < |cells| => cells[i].x);
      ys := seq(|cells|, i requires 0 <= i < |cells| => cells[i].y);
      adjX, adjY := [], [];
    }

    /** `grid['adj_x'] = grid['x'] - minx` and `grid['adj_y'] = grid['y'] - miny`. */
    method AddWindowColumns(minx: int, miny: int)
      requires Valid()
      modifies this
      ensures Valid() && xs == old(xs) && ys == old(ys)
      ensures |adjX| == |adjY| == |xs|
      ensures forall i :: 0 <= i < |xs| ==> adjX[i] == xs[i] - minx && adjY[i] == ys[i] - miny
    {
      var xs0, ys0 := xs, ys;
      adjX := seq(|xs0|, i requires 0 <= i < |xs0| => xs0[i] - minx);
      adjY := seq(|ys0|, i requires 0 <= i < |ys0| => ys0[i] - miny);
    }
  }

  /** The outcome of each member, in member order. */
  function Outcomes(members: seq<Member>, targets: seq<Cell>, window: Option<Window>): (r: seq<Result<seq<Observation>, ImportError>>)
    requires window == TargetWindow(targets)
    ensures |r| == |members|
    ensures forall i :: 0 <= i < |members| ==> r[i] == MemberOutcome(members[i], targets, window)
  {
    seq(|members|, i requires 0 <= i < |members| => MemberOutcome(members[i], targets, window))
  }

  function Names(members: seq<Member>): (r: seq<string>)
    ensures |r| == |members| && forall i :: 0 <= i < |members| ==> r[i] == members[i].name
  {
    seq(|members|, i requires 0 <= i < |members| => members[i].name)
  }

  /**
   * What the member loop produces from the members' names and outcomes: the
   * (name, rows) of each member written, in order, up to the first member
   * that raises, and that member's error.
   */
  function WriteLoop(names: seq<string>, outcomes: seq<Result<seq<Observation>, ImportError>>)
    : (r: (seq<(string, seq<Observation>)>, Option<ImportError>))
    requires |names| == |outcomes|
    ensures |r.0| <= |names|
    ensures r.1.None? ==> |r.0| == |names|
  {
    if names == [] then ([], None)
    else
      var n := |names| - 1;
      var (written, failure) := WriteLoop(names[..n], outcomes[..n]);
      if failure.Some? then (written, failure)
      else
        match outcomes[n]
        case Failure(e) => (written, Some(e))
        case Success(rows) => (written + [(names[n], rows)], None)
  }

  /**
   * The loop writes a prefix of the members, each with its own rows, and
   * stops at the first failing member, whose error it reports; it writes
   * everything exactly when no member fails.
   */
  lemma {:induction false} WriteLoopWritten(names: seq<string>, outcomes: seq<Result<seq<Observation>, ImportError>>)
    requires |names| == |outcomes|
    ensures var (written, failure) := WriteLoop(names, outcomes);
      && |written| <= |names|
      && (forall i :: 0 <= i < |written| ==> outcomes[i].Success? && written[i] == (names[i], outcomes[i].value))
      && (failure.None? <==> forall i :: 0 <= i < |outcomes| ==> outcomes[i].Success?)
      && (failure.None? ==> |written| == |names|)
      && (failure.Some? ==> |written| < |names| && outcomes[|written|].Failure? && failure == Some(outcomes[|written|].error))
  {
    if names != [] {
      var n := |names| - 1;
      WriteLoopWritten(names[..n], outcomes[..n]);
      var (w0, f0) := WriteLoop(names[..n], outcomes[..n]);
      var (written, failure) := WriteLoop(names, outcomes);
      assert forall i :: 0 <= i < n ==> outcomes[..n][i] == outcomes[i] && names[..n][i] == names[i];
      if f0.None? {
        assert written[..|w0|] == w0;
      }
    }
  }

  /** A member that imports after a clean prefix is written next. */
  lemma WriteLoopStep(names: seq<string>, outcomes: seq<Result<seq<Observation>, ImportError>>, i: nat,
                      written: seq<(string, seq<Observation>)>)
    requires |names| == |outcomes| && i < |names|
    requires WriteLoop(names[..i], outcomes[..i]) == (written, None) && outcomes[i].Success?
    ensures WriteLoop(names[..i + 1], outcomes[..i + 1]) == (written + [(names[i], outcomes[i].value)], None)
  {
    assert names[..i + 1][..i] == names[..i] && outcomes[..i + 1][..i] == outcomes[..i];
  }

  /** A member that raises after a clean prefix ends the whole loop with its error. */
  lemma WriteLoopStop(names: seq<string>, outcomes: seq<Result<seq<Observation>, ImportError>>, i: nat,
                      written: seq<(string, seq<Observation>)>)
    requires |names| == |outcomes| && i < |names|
    requires WriteLoop(names[..i], outcomes[..i]) == (written, None) && outcomes[i].Failure?
    ensures WriteLoop(names, outcomes) == (written, Some(outcomes[i].error))
  {
    assert names[..i + 1][..i] == names[..i] && outcomes[..i + 1][..i] == outcomes[..i];
    WriteFailurePersists(names, outcomes, i + 1);
  }

  /** Once a prefix of the members fails, the whole loop ends with that failure. */
  lemma {:induction false} WriteFailurePersists(names: seq<string>, outcomes: seq<Result<seq<Observation>, ImportError>>, n: nat)
    requires |names| == |outcomes| && n <= |names|
    requires WriteLoop(names[..n], outcomes[..n]).1.Some?
    ensures WriteLoop(names, outcomes) == WriteLoop(names[..n], outcomes[..n])
  {
    if n < |names| {
      var last := |names| - 1;
      assert names[..last][..n] == names[..n] && outcomes[..last][..n] == outcomes[..n];
      WriteFailurePersists(names[..last], outcomes[..last], n);
    } else {
      assert names[..n] == names && outcomes[..n] == outcomes;
    }
  }

  /**
   * `import_tarfile`: keep the `Z98` members, compute the window, add the
   * window-relative columns to `grid`, then import the members in order,
   * stopping at the first error.
   */
  method ImportTarfile(members: seq<Member>, grid: TargetGrid)
    returns (written: seq<(string, seq<Observation>)>, failure: Option<ImportError>)
    requires grid.Valid()
    modifies grid
    ensures grid.Valid() && grid.xs == old(grid.xs) && grid.ys == old(grid.ys)
    ensures var targets := old(grid.Cells());
      TargetWindow(targets).Some? ==>
        && |grid.adjX| == |grid.adjY| == |targets|
        && forall i :: 0 <= i < |targets| ==>
             grid.adjX[i] == targets[i].x - TargetWindow(targets).value.rowOff &&
             grid.adjY[i] == targets[i].y - TargetWindow(targets).value.colOff
    ensures var z98 := Z98Members(members); var targets := old(grid.Cells());
      (written, failure) == WriteLoop(Names(z98), Outcomes(z98, targets, TargetWindow(targets)))
  {
    var z98 := Z98Members(members);
    var targets := grid.Cells();
    var window := TargetWindow(targets);
    if window.Some? {
      grid.AddWindowColumns(window.value.rowOff, window.value.colOff);
    } else {
      grid.AddWindowColumns(0, 0);
    }
    assert grid.Cells() == targets;
    written, failure := WriteMembers(z98, targets, window);
  }

  /** The loop of `import_tarfile` over the kept members, stopping at the first error. */
  method WriteMembers(z98: seq<Member>, targets: seq<Cell>, window: Option<Window>)
    returns (written: seq<(string, seq<Observation>)>, failure: Option<ImportError>)
    requires window == TargetWindow(targets)
    ensures (written, failure) == WriteLoop(Names(z98), Outcomes(z98, targets, window))
  {
    ghost var names, outcomes := Names(z98), Outcomes(z98, targets, window);
    written, failure := [], None;
    var i := 0;
    while i < |z98|
      invariant 0 <= i <= |z98|
      invariant WriteLoop(names[..i], outcomes[..i]) == (written, None)
    {
      var m := z98[i];
      var rows := MemberOutcome(m, targets, window);
      assert rows == outcomes[i];
      if rows.Failure? {
        failure := Some(rows.error);
        WriteLoopStop(names, outcomes, i, written);
        return;
      }
      WriteLoopStep(names, outcomes, i, written);
      written := written + [(m.name, rows.value)];
      i := i + 1;
    }
    assert names[..i] == names && outcomes[..i] == outcomes;
  }

  // ---------------------------------------------------------------------
  // Order numbers

  const HasBaseUrl: string := "https://www1.ncdc.noaa.gov/pub/has/"

  predicate StartsWithHas(url: string) {
    |url| >= 3 && url[..3] == "HAS"
  }

  /** The check and the prefixing of one `urls` argument in `main`. */
  function OrderPageUrl(url: string): (r: Result<string, ImportError>)
    ensures r.Success? <==> StartsWithHas(url)
    ensures r.Success? ==> r.value == HasBaseUrl + url && r.value[|HasBaseUrl|..] == url
    ensures r.Failure? ==> r.error == NotAnOrderNumber(url)
  {
    if StartsWithHas(url) then Success(HasBaseUrl + url) else Failure(NotAnOrderNumber(url))
  }

  /**
   * The tarball URLs `main` collects for `urls`, given the listing
   * `get_extract_urls` would return for each order page.
   */
  function TarUrls(urls: seq<string>, listing: string -> seq<string>): (r: Result<seq<string>, ImportError>)
    ensures r.Success? <==> forall i :: 0 <= i < |urls| ==> StartsWithHas(urls[i])
  {
    if urls == [] then Success([])
    else
      assert forall i :: 0 <= i < |urls| - 1 ==> urls[..|urls| - 1][i] == urls[i];
      match TarUrls(urls[..|urls| - 1], listing)
      case Failure(e) => Failure(e)
      case Success(found) =>
        match OrderPageUrl(urls[|urls| - 1])
        case Failure(e) => Failure(e)
        case Success(page) => Success(found + listing(page))
  }

  /**
   * The collection fails exactly when some argument lacks the `HAS` prefix,
   * and then it names the first such argument.
   */
  lemma {:induction false} TarUrlsFailure(urls: seq<string>, listing: string -> seq<string>)
    ensures TarUrls(urls, listing).Failure? <==> exists i :: 0 <= i < |urls| && !StartsWithHas(urls[i])
    ensures TarUrls(urls, listing).Failure? ==>
      exists i :: 0 <= i < |urls| && TarUrls(urls, listing).error == NotAnOrderNumber(urls[i]) &&
        !StartsWithHas(urls[i]) && forall j :: 0 <= j < i ==> StartsWithHas(urls[j])
  {
    if urls != [] {
      var init := urls[..|urls| - 1];
      TarUrlsFailure(init, listing);
      assert forall i :: 0 <= i < |init| ==> urls[i] == init[i];
    }
  }

  /** The loop of `main` that checks each argument and extends `all_tar_urls`. */
  method CollectTarUrls(urls: seq<string>, listing: string -> seq<string>) returns (r: Result<seq<string>, ImportError>)
    ensures r == TarUrls(urls, listing)
  {
    var allTarUrls: seq<string> := [];
    for i := 0 to |urls|
      invariant TarUrls(urls[..i], listing) == Success(allTarUrls)
    {
      assert urls[..i + 1][..i] == urls[..i];
      var page := OrderPageUrl(urls[i]);
      if page.Failure? {
        TarUrlsFailurePersists(urls, i + 1, listing);
        return Failure(page.error);
      }
      allTarUrls := allTarUrls + listing(page.value);
    }
    assert urls[..|urls|] == urls;
    return Success(allTarUrls);
  }

  lemma {:induction false} TarUrlsFailurePersists(urls: seq<string>, n: nat, listing: string -> seq<string>)
    requires n <= |urls|
    requires TarUrls(urls[..n], listing).Failure?
    ensures TarUrls(urls, listing) == TarUrls(urls[..n], listing)
  {
    if n < |urls| {
      assert urls[..|urls| - 1][..n] == urls[..n];
      TarUrlsFailurePersists(urls[..|urls| - 1], n, listing);
    } else {
      assert urls[..n] == urls;
    }
  }
}
