/** The textual side of src/utils.cpp: `depth_to_string`, `describe_mat`,
    `make_channel_labels`, `append_pixel_components` and
    `format_pixel_value`. Sample values are printed by `show`, which stands
    for `operator<<` on a `long double`; coordinates and counts are printed
    exactly, as `operator<<` on an `int` does. */
module PixelText {
  import opened Wrappers
  import opened Numerals
  import opened Viewer

  /** `depth_to_string`. */
  function DepthToString(d: Depth): string {
    match d
    case U8 => "8U"
    case S8 => "8S"
    case U16 => "16U"
    case S16 => "16S"
    case S32 => "32S"
    case F32 => "32F"
    case F64 => "64F"
    case OtherDepth => "Unknown"
  }

  /** Reads back a depth name. */
  function ParseDepth(s: string): Option<Depth> {
    if s == "8U" then Some(U8)
    else if s == "8S" then Some(S8)
    else if s == "16U" then Some(U16)
    else if s == "16S" then Some(S16)
    else if s == "32S" then Some(S32)
    else if s == "32F" then Some(F32)
    else if s == "64F" then Some(F64)
    else if s == "Unknown" then Some(OtherDepth)
    else None
  }

  /** Every depth has its own name. */
  lemma DepthNameRoundTrip(d: Depth)
    ensures ParseDepth(DepthToString(d)) == Some(d)
  {
  }

  /** `describe_mat`: "empty", or "<cols>x<rows> x<channels> <depth>". */
  function DescribeMat(m: Option<Shape>): string {
    match m
    case None => "empty"
    case Some(s) =>
      DecimalText(s.cols) + "x" + DecimalText(s.rows) + " x" + DecimalText(s.channels) + " " + DepthToString(s.depth)
  }

  /** Reads the decimal number `t` starts with, which must be followed by
      `sep`; yields the number and what follows `sep`. */
  function ReadNumber(t: string, sep: string): Option<(nat, string)> {
    var a := DigitRun(t);
    if a == 0 || |t| - a < |sep| || t[a..a + |sep|] != sep then None
    else Some((Parse(t[..a], 10), t[a + |sep|..]))
  }

  lemma ReadNumberOfDecimal(n: nat, sep: string, rest: string)
    requires |sep| > 0 && !IsDigitOf(sep[0], 10)
    ensures ReadNumber(DecimalText(n) + sep + rest, sep) == Some((n, rest))
  {
    var d := DecimalText(n);
    var t := d + sep + rest;
    assert t == d + (sep + rest);
    DigitRunOfDecimal(n, sep + rest);
    assert t[..|d|] == d;
    assert t[|d|..|d| + |sep|] == sep;
    assert t[|d| + |sep|..] == rest;
    ParseRender(n, 10);
  }

  /** Reads a description of a non-empty matrix back into its shape. */
  function ParseDescription(t: string): Option<Shape> {
    match ReadNumber(t, "x")
    case None => None
    case Some((cols, t1)) =>
      match ReadNumber(t1, " x")
      case None => None
      case Some((rows, t2)) =>
        match ReadNumber(t2, " ")
        case None => None
        case Some((channels, t3)) =>
          match ParseDepth(t3)
          case None => None
          case Some(d) => Some(Shape(cols, rows, channels, d))
  }

  /** A description determines the shape it describes, and never reads
      "empty". */
  lemma DescribeMatRoundTrip(s: Shape)
    ensures ParseDescription(DescribeMat(Some(s))) == Some(s)
    ensures DescribeMat(Some(s)) != DescribeMat(None)
  {
    var c, r, n, d := DecimalText(s.cols), DecimalText(s.rows), DecimalText(s.channels), DepthToString(s.depth);
    var t3 := d;
    var t2 := n + " " + t3;
    var t1 := r + " x" + t2;
    var t := c + "x" + t1;
    assert DescribeMat(Some(s)) == t;
    ReadNumberOfDecimal(s.cols, "x", t1);
    ReadNumberOfDecimal(s.rows, " x", t2);
    ReadNumberOfDecimal(s.channels, " ", t3);
    DepthNameRoundTrip(s.depth);
    assert t[0] == c[0];
  }

  /** `make_channel_labels`: which stored channel each printed component
      shows. OpenCV stores colour as B, G, R[, A], so the names R, G, B read
      channels 2, 1, 0. */
  function MakeChannelLabels(channels: int): (labels: seq<ChannelLabel>)
    ensures channels >= 1 ==> |labels| == channels
    ensures channels >= 1 ==> forall i :: 0 <= i < |labels| ==> 0 <= labels[i].index < channels
    ensures forall i, j :: 0 <= i < j < |labels| ==> labels[i].index != labels[j].index
    ensures forall i :: 0 <= i < |labels| ==> (labels[i].name.Some? <==> channels in {1, 3, 4})
    ensures channels !in {1, 3, 4} ==> forall i :: 0 <= i < |labels| ==> labels[i].index == i
  {
    if channels == 1 then
      [ChannelLabel(0, Some("Gray"))]
    else if channels == 3 then
      [ChannelLabel(2, Some("R")), ChannelLabel(1, Some("G")), ChannelLabel(0, Some("B"))]
    else if channels == 4 then
      [ChannelLabel(2, Some("R")), ChannelLabel(1, Some("G")), ChannelLabel(0, Some("B")), ChannelLabel(3, Some("A"))]
    else
      seq(Max(channels, 0), i => ChannelLabel(i, None))
  }

  /** `std::clamp(index, 0, channels - 1)`. */
  function ClampIndex(index: int, channels: int): (c: int)
    requires channels >= 1
    ensures 0 <= c < channels
    ensures 0 <= index < channels ==> c == index
  {
    if index < 0 then 0 else if index > channels - 1 then channels - 1 else index
  }

  predicate InBounds(img: Image, x: int, y: int) {
    img.Image? && 0 <= x < img.cols && 0 <= y < img.rows
  }

  lemma PixelOffsetInRange(cols: nat, rows: nat, x: int, y: int)
    requires 0 <= x < cols && 0 <= y < rows
    ensures 0 <= y * cols + x < cols * rows
  {
    assert y * cols <= (rows - 1) * cols;
  }

  /** The sample of channel `c` at pixel (x, y): `mat.ptr<T>(y)[x * channels + c]`. */
  function SampleAt(img: Image, x: int, y: int, c: int): int
    requires img.WellFormed() && InBounds(img, x, y) && 0 <= c < |img.planes|
  {
    PixelOffsetInRange(img.cols, img.rows, x, y);
    img.planes[c][y * img.cols + x]
  }

  /** One "<name>=<value>" component; an unnamed label prints as C<index>. */
  function ComponentText(entry: ChannelLabel, img: Image, x: int, y: int, show: int -> string): string
    requires img.WellFormed() && InBounds(img, x, y)
  {
    var c := ClampIndex(entry.index, |img.planes|);
    var name := match entry.name case Some(n) => n case None => "C" + IntText(c);
    name + "=" + show(SampleAt(img, x, y, c))
  }

  /** The components of `labels`, separated by ", ". */
  function ComponentsText(labels: seq<ChannelLabel>, img: Image, x: int, y: int, show: int -> string): string
    requires img.WellFormed() && InBounds(img, x, y)
  {
    if labels == [] then ""
    else if |labels| == 1 then ComponentText(labels[0], img, x, y, show)
    else
      ComponentsText(labels[..|labels| - 1], img, x, y, show) + ", "
        + ComponentText(labels[|labels| - 1], img, x, y, show)
  }

  /** `append_pixel_components`: the loop that writes the components to the
      stream `oss`. */
  method AppendPixelComponents(oss: string, img: Image, x: int, y: int, labels: seq<ChannelLabel>, show: int -> string)
    returns (out: string)
    requires img.WellFormed() && InBounds(img, x, y)
    ensures out == oss + ComponentsText(labels, img, x, y, show)
  {
    out := oss;
    var i := 0;
    while i < |labels|
      invariant 0 <= i <= |labels|
      invariant out == oss + ComponentsText(labels[..i], img, x, y, show)
    {
      if i > 0 {
        out := out + ", ";
      }
      out := out + ComponentText(labels[i], img, x, y, show);
      assert labels[..i + 1][..i] == labels[..i];
      i := i + 1;
    }
    assert labels[..i] == labels;
  }

  /** The text before the components: "(x, y) [". */
  function CoordinatePrefix(x: int, y: int): string {
    "(" + IntText(x) + ", " + IntText(y) + ") ["
  }

  /** `format_pixel_value`: empty outside the image; otherwise the
      coordinates and every channel's value at (x, y), in brackets. */
  function FormatPixelValue(img: Image, x: int, y: int, show: int -> string): (r: string)
    requires img.WellFormed()
    ensures r == "" <==> !InBounds(img, x, y)
    ensures r != "" ==> |r| > |CoordinatePrefix(x, y)| && r[..|CoordinatePrefix(x, y)|] == CoordinatePrefix(x, y)
    ensures r != "" ==> r[|r| - 1] == ']'
  {
    if !InBounds(img, x, y) then ""
    else
      var body :=
        if img.depth == OtherDepth then "unsupported depth"
        else ComponentsText(MakeChannelLabels(|img.planes|), img, x, y, show);
      var r := CoordinatePrefix(x, y) + body + "]";
      assert r[..|CoordinatePrefix(x, y)|] == CoordinatePrefix(x, y);
      r
  }

  /** The components of a three-channel pixel, stored B, G, R, print R, G, B. */
  lemma ThreeChannelComponents(img: Image, x: int, y: int, show: int -> string)
    requires img.WellFormed() && InBounds(img, x, y) && |img.planes| == 3
    ensures ComponentsText(MakeChannelLabels(3), img, x, y, show) ==
      "R=" + show(SampleAt(img, x, y, 2)) + ", " + "G=" + show(SampleAt(img, x, y, 1)) + ", " + "B=" + show(SampleAt(img, x, y, 0))
  {
    var labels := MakeChannelLabels(3);
    var r := ComponentText(labels[0], img, x, y, show);
    var g := ComponentText(labels[1], img, x, y, show);
    var b := ComponentText(labels[2], img, x, y, show);
    assert r == "R=" + show(SampleAt(img, x, y, 2));
    assert g == "G=" + show(SampleAt(img, x, y, 1));
    assert b == "B=" + show(SampleAt(img, x, y, 0));
    assert labels[..2][..1] == [labels[0]];
    assert ComponentsText(labels[..2], img, x, y, show) == r + ", " + g;
    assert ComponentsText(labels, img, x, y, show) == r + ", " + g + ", " + b;
  }

  /** Channel counts outside the colour models print each channel by index. */
  lemma TwoChannelComponents(img: Image, x: int, y: int, show: int -> string)
    requires img.WellFormed() && InBounds(img, x, y) && |img.planes| == 2
    ensures ComponentsText(MakeChannelLabels(2), img, x, y, show) ==
      "C0=" + show(SampleAt(img, x, y, 0)) + ", " + "C1=" + show(SampleAt(img, x, y, 1))
  {
    var labels := MakeChannelLabels(2);
    assert labels == [ChannelLabel(0, None), ChannelLabel(1, None)];
    assert labels[..1] == [labels[0]];
    assert IntText(0) == "0" && IntText(1) == "1";
    assert ComponentText(labels[0], img, x, y, show) == "C0=" + show(SampleAt(img, x, y, 0));
    assert ComponentText(labels[1], img, x, y, show) == "C1=" + show(SampleAt(img, x, y, 1));
  }

  /** A one-channel pixel prints its only sample as "Gray". */
  lemma OneChannelComponents(img: Image, x: int, y: int, show: int -> string)
    requires img.WellFormed() && InBounds(img, x, y) && |img.planes| == 1
    ensures ComponentsText(MakeChannelLabels(1), img, x, y, show) == "Gray=" + show(SampleAt(img, x, y, 0))
  {
    var labels := MakeChannelLabels(1);
    assert ComponentText(labels[0], img, x, y, show) == "Gray=" + show(SampleAt(img, x, y, 0));
  }

  /** The components of a four-channel pixel, stored B, G, R, A, print
      R, G, B and then A. */
  lemma FourChannelComponents(img: Image, x: int, y: int, show: int -> string)
    requires img.WellFormed() && InBounds(img, x, y) && |img.planes| == 4
    ensures ComponentsText(MakeChannelLabels(4), img, x, y, show) ==
      "R=" + show(SampleAt(img, x, y, 2)) + ", " + "G=" + show(SampleAt(img, x, y, 1)) + ", "
        + "B=" + show(SampleAt(img, x, y, 0)) + ", " + "A=" + show(SampleAt(img, x, y, 3))
  {
    var labels := MakeChannelLabels(4);
    var r := ComponentText(labels[0], img, x, y, show);
    var g := ComponentText(labels[1], img, x, y, show);
    var b := ComponentText(labels[2], img, x, y, show);
    var a := ComponentText(labels[3], img, x, y, show);
    assert r == "R=" + show(SampleAt(img, x, y, 2));
    assert g == "G=" + show(SampleAt(img, x, y, 1));
    assert b == "B=" + show(SampleAt(img, x, y, 0));
    assert a == "A=" + show(SampleAt(img, x, y, 3));
    assert labels[..3][..2][..1] == [labels[0]];
    assert labels[..3][..2] == labels[..2];
    assert ComponentsText(labels[..2], img, x, y, show) == r + ", " + g;
    assert ComponentsText(labels[..3], img, x, y, show) == r + ", " + g + ", " + b;
    assert ComponentsText(labels, img, x, y, show) == r + ", " + g + ", " + b + ", " + a;
  }

  /** `parts` separated by ", ". */
  function JoinComma(parts: seq<string>): string {
    if parts == [] then ""
    else if |parts| == 1 then parts[0]
    else JoinComma(parts[..|parts| - 1]) + ", " + parts[|parts| - 1]
  }

  /** The text "C<i>=<sample of channel i>" of channel `i`. */
  function IndexedComponent(img: Image, x: int, y: int, show: int -> string, i: int): string
    requires img.WellFormed() && InBounds(img, x, y) && 0 <= i < |img.planes|
  {
    "C" + IntText(i) + "=" + show(SampleAt(img, x, y, i))
  }

  /** The channels printed by index, in index order. */
  function IndexedComponents(img: Image, x: int, y: int, show: int -> string): (parts: seq<string>)
    requires img.WellFormed() && InBounds(img, x, y)
  {
    seq(|img.planes|, i requires 0 <= i < |img.planes| => IndexedComponent(img, x, y, show, i))
  }

  /** The text of each component, in label order. */
  function ComponentTexts(labels: seq<ChannelLabel>, img: Image, x: int, y: int, show: int -> string): (parts: seq<string>)
    requires img.WellFormed() && InBounds(img, x, y)
    ensures |parts| == |labels|
  {
    if labels == [] then []
    else ComponentTexts(labels[..|labels| - 1], img, x, y, show) + [ComponentText(labels[|labels| - 1], img, x, y, show)]
  }

  /** The components, as written by the loop, are their texts joined by ", ". */
  lemma {:induction false} ComponentsJoined(labels: seq<ChannelLabel>, img: Image, x: int, y: int, show: int -> string)
    requires img.WellFormed() && InBounds(img, x, y)
    ensures ComponentsText(labels, img, x, y, show) == JoinComma(ComponentTexts(labels, img, x, y, show))
  {
    if |labels| > 1 {
      var front := labels[..|labels| - 1];
      ComponentsJoined(front, img, x, y, show);
      var parts := ComponentTexts(labels, img, x, y, show);
      assert parts[..|parts| - 1] == ComponentTexts(front, img, x, y, show);
    }
  }

  /** Each component's text, by position. */
  lemma {:induction false} ComponentTextsAt(labels: seq<ChannelLabel>, img: Image, x: int, y: int, show: int -> string, i: nat)
    requires img.WellFormed() && InBounds(img, x, y) && i < |labels|
    ensures ComponentTexts(labels, img, x, y, show)[i] == ComponentText(labels[i], img, x, y, show)
  {
    if i < |labels| - 1 {
      ComponentTextsAt(labels[..|labels| - 1], img, x, y, show, i);
    }
  }

  /** A pixel whose channel count is not 1, 3 or 4 prints channel i as
      "C<i>=" and its sample, for every channel in index order. */
  lemma IndexedChannelComponents(img: Image, x: int, y: int, show: int -> string)
    requires img.WellFormed() && InBounds(img, x, y) && |img.planes| !in {1, 3, 4}
    ensures ComponentsText(MakeChannelLabels(|img.planes|), img, x, y, show) == JoinComma(IndexedComponents(img, x, y, show))
  {
    var labels := MakeChannelLabels(|img.planes|);
    ComponentsJoined(labels, img, x, y, show);
    var parts := ComponentTexts(labels, img, x, y, show);
    forall i | 0 <= i < |labels| ensures parts[i] == IndexedComponent(img, x, y, show, i) {
      ComponentTextsAt(labels, img, x, y, show, i);
      assert labels[i].name.None? && labels[i].index == i;
    }
    assert parts == IndexedComponents(img, x, y, show);
  }

  /** The text of an in-bounds pixel of a supported depth: the coordinates,
      then the components `make_channel_labels` selects, then "]". */
  lemma PixelValueOfComponents(img: Image, x: int, y: int, show: int -> string)
    requires img.WellFormed() && InBounds(img, x, y) && img.depth != OtherDepth
    ensures FormatPixelValue(img, x, y, show)
            == CoordinatePrefix(x, y) + ComponentsText(MakeChannelLabels(|img.planes|), img, x, y, show) + "]"
  {
  }

  /** An in-bounds pixel of an unknown depth prints no sample. */
  lemma PixelValueOfUnsupportedDepth(img: Image, x: int, y: int, show: int -> string)
    requires img.WellFormed() && InBounds(img, x, y) && img.depth == OtherDepth
    ensures FormatPixelValue(img, x, y, show) == CoordinatePrefix(x, y) + "unsupported depth]"
  {
  }
}
