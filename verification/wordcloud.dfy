/** The browser's word cloud (`createWordCloud` and `createCustomWordCloud` in
    static/script.js): pick the words, size them by normalised count, colour
    them from a fixed palette and place them on a clamped spiral.

    JavaScript numbers are modelled as exact reals. Integer counts and canvas
    dimensions are exact there too; the model does not reproduce IEEE rounding
    of quotients, products and sums. The one non-finite case the
    code can reach, `0 / 0 = NaN` in the normalisation, is modelled as `None`. */
module WordCloud {
  import opened Wrappers
  import opened Seqs
  import opened Ranking

  const MaxCloudWords: nat := 40
  const MinFontSize: real := 14.0
  const MaxFontSize: real := 48.0
  /** Distance kept from the left, right and bottom edges. */
  const Margin: real := 10.0

  const Palette: seq<string> :=
    ["#667eea", "#764ba2", "#f093fb", "#f5576c", "#4facfe", "#00f2fe", "#a8edea", "#fed6e3"]

  /** A word enters the cloud when it is longer than two characters and
      occurs more than once. */
  predicate Qualifies(e: Entry) {
    |e.word| > 2 && e.count > 1
  }

  /** What `createWordCloud` does with the frequency table: one of two
      placeholder messages, or the ranked word list handed to the renderer. */
  datatype Outcome = NoFrequencyData | NotEnoughData | Cloud(words: seq<Entry>)

  /** The selection step. `None` stands for a missing (`null`/`undefined`)
      frequency object; the sequence lists `Object.entries(frequency)`. */
  function SelectWords(table: Option<seq<Entry>>): (o: Outcome)
    ensures o.NoFrequencyData? <==> table.None? || table.value == []
    ensures o.NotEnoughData? <==>
      table.Some? && table.value != [] && forall i :: 0 <= i < |table.value| ==> !Qualifies(table.value[i])
    ensures o.Cloud? ==>
      var q := Filter(table.value, Qualifies);
      && 0 < |o.words| == Min(MaxCloudWords, |q|)
      && SortedDesc(o.words)
      && (forall i :: 0 <= i < |o.words| ==> Qualifies(o.words[i]))
      && multiset(o.words) <= multiset(table.value)
      && (forall c :: IsPrefix(WithCount(o.words, c), WithCount(q, c)))
      && (forall x, y :: x in o.words && y in multiset(q) - multiset(o.words) ==> x.count >= y.count)
  {
    if table.None? || table.value == [] then NoFrequencyData
    else
      var q := Filter(table.value, Qualifies);
      NoneQualify(table.value, q);
      var words := TopN(q, MaxCloudWords);
      if words == [] then NotEnoughData
      else
        SelectedWordsQualify(table.value, q, words);
        Cloud(words)
  }

  /** The kept words qualify and are drawn from the table. */
  lemma SelectedWordsQualify(s: seq<Entry>, q: seq<Entry>, words: seq<Entry>)
    requires q == Filter(s, Qualifies)
    requires multiset(words) <= multiset(q)
    ensures forall i :: 0 <= i < |words| ==> Qualifies(words[i])
    ensures multiset(words) <= multiset(s)
  {
    forall i | 0 <= i < |words| ensures Qualifies(words[i]) {
      assert words[i] in multiset(q);
    }
    forall x ensures multiset(words)[x] <= multiset(s)[x] {
      assert multiset(q)[x] <= multiset(s)[x];
    }
  }

  /** The filtered list is empty exactly when no entry qualifies. */
  lemma NoneQualify(s: seq<Entry>, q: seq<Entry>)
    requires q == Filter(s, Qualifies)
    ensures q == [] <==> forall i :: 0 <= i < |s| ==> !Qualifies(s[i])
  {
    if q == [] {
      forall i | 0 <= i < |s| ensures !Qualifies(s[i]) {
        assert multiset(q)[s[i]] == 0;
      }
    } else {
      assert Qualifies(q[0]) && q[0] in multiset(s);
    }
  }

  /** `Math.max(lo, Math.min(hi, v))`: never below `lo`; when the window is
      empty (`hi < lo`) the lower bound wins. */
  function Clamp(lo: real, hi: real, v: real): (r: real)
    ensures r >= lo
    ensures lo <= hi ==> r <= hi
    ensures lo <= v <= hi ==> r == v
    ensures v <= lo || hi <= lo ==> r == lo
    ensures lo <= hi <= v ==> r == hi
  {
    var upper := if hi <= v then hi else v;
    if lo >= upper then lo else upper
  }

  /** The font size of a word of count `count` when the kept counts range
      over `[minCount, maxCount]`:
      `Math.max(14, Math.min(48, 14 + (count - minCount) / (maxCount - minCount) * 34))`.
      With `maxCount == minCount` the quotient is `NaN` (`None`) for
      `count == minCount`, and `+Infinity` or `-Infinity` otherwise, which the
      clamp turns into 48 or 14. */
  function FontSize(count: int, minCount: int, maxCount: int): (size: Option<real>)
    ensures size.None? <==> count == minCount == maxCount
    ensures size.Some? ==> MinFontSize <= size.value <= MaxFontSize
    ensures minCount < maxCount && minCount <= count <= maxCount ==>
      size == Some(MinFontSize + (count - minCount) as real / (maxCount - minCount) as real * 34.0)
    ensures minCount <= maxCount && count == maxCount && count != minCount ==> size == Some(MaxFontSize)
    ensures minCount <= maxCount && count == minCount && count != maxCount ==> size == Some(MinFontSize)
  {
    if maxCount == minCount then
      if count == minCount then None
      else if count > minCount then Some(Clamp(MinFontSize, MaxFontSize, MaxFontSize))
      else Some(Clamp(MinFontSize, MaxFontSize, MinFontSize))
    else
      var normalised := (count - minCount) as real / (maxCount - minCount) as real;
      if minCount <= count <= maxCount then
        QuotientInUnit((count - minCount) as real, (maxCount - minCount) as real);
        Some(Clamp(MinFontSize, MaxFontSize, MinFontSize + normalised * 34.0))
      else
        Some(Clamp(MinFontSize, MaxFontSize, MinFontSize + normalised * 34.0))
  }

  /** `0 <= a <= d` and `d > 0` put `a / d` in `[0, 1]`, with `d / d == 1`. */
  lemma QuotientInUnit(a: real, d: real)
    requires 0.0 <= a <= d && d > 0.0
    ensures 0.0 <= a / d <= 1.0
    ensures a == 0.0 ==> a / d == 0.0
    ensures a == d ==> a / d == 1.0
  {
    var n := a / d;
    assert n * d == a;
  }

  /** Division by a positive constant preserves order. */
  lemma QuotientMonotone(a: real, b: real, d: real)
    requires a <= b && d > 0.0
    ensures a / d <= b / d
  {
    var x, y := a / d, b / d;
    assert x * d == a && y * d == b;
  }

  /** A larger count never gets a smaller font. */
  lemma FontSizeMonotone(c1: int, c2: int, minCount: int, maxCount: int)
    requires minCount < maxCount
    requires c1 <= c2
    ensures FontSize(c1, minCount, maxCount).value <= FontSize(c2, minCount, maxCount).value
  {
    QuotientMonotone((c1 - minCount) as real, (c2 - minCount) as real, (maxCount - minCount) as real);
  }

  /** Over a ranked word list the sizes run from 48 at rank 0 down to 14 at
      the last rank when the counts differ, and are undefined for every word
      when they do not (one word, or all counts equal). */
  lemma {:induction false} RankedFontSizes(words: seq<Entry>)
    requires |words| > 0 && SortedDesc(words)
    ensures var maxCount, minCount := words[0].count, words[|words| - 1].count;
      && (maxCount == minCount ==>
            forall i :: 0 <= i < |words| ==> FontSize(words[i].count, minCount, maxCount).None?)
      && (maxCount != minCount ==>
            && FontSize(maxCount, minCount, maxCount) == Some(MaxFontSize)
            && FontSize(minCount, minCount, maxCount) == Some(MinFontSize)
            && forall i, j :: 0 <= i <= j < |words| ==>
                 FontSize(words[i].count, minCount, maxCount).Some?
                 && FontSize(words[j].count, minCount, maxCount).value <= FontSize(words[i].count, minCount, maxCount).value)
  {
    var maxCount, minCount := words[0].count, words[|words| - 1].count;
    forall i | 0 <= i < |words| ensures minCount <= words[i].count <= maxCount {
      assert i == 0 || words[0].count >= words[i].count;
      assert i == |words| - 1 || words[i].count >= words[|words| - 1].count;
    }
    if maxCount != minCount {
      forall i, j | 0 <= i <= j < |words|
        ensures FontSize(words[j].count, minCount, maxCount).value <= FontSize(words[i].count, minCount, maxCount).value
      {
        assert i == j || words[i].count >= words[j].count;
        FontSizeMonotone(words[j].count, words[i].count, minCount, maxCount);
      }
    }
  }

  /** The colour of rank `rank`: the palette, cycled. */
  function ColourAt(rank: nat): (c: string)
    ensures c in Palette
    ensures rank < |Palette| ==> forall j :: 0 <= j < |Palette| && j != rank ==> Palette[j] != c
  {
    Palette[rank % |Palette|]
  }

  /** Two ranks share a colour exactly when they are congruent modulo the
      palette size: ranks `i` and `i + 8` match, and the first eight ranks
      all differ. */
  lemma ColourCycle(i: nat, j: nat)
    ensures ColourAt(i) == ColourAt(j) <==> i % |Palette| == j % |Palette|
  {
    var a, b := i % |Palette|, j % |Palette|;
    if a != b {
      assert ColourAt(a) == ColourAt(i) && ColourAt(b) == ColourAt(j);
    }
  }

  /** Canvas size in pixels (`canvas.width`, `canvas.height`). */
  datatype Canvas = Canvas(width: nat, height: nat)

  /** `Math.min(30 + rank * 8, Math.min(width, height) / 3)`: the spiral grows
      8 pixels per rank from 30 and stops at a third of the shorter side. */
  function Radius(rank: nat, canvas: Canvas): (r: real)
    ensures r <= MinReal(canvas.width as real, canvas.height as real) / 3.0
    ensures r <= 30.0 + 8.0 * rank as real
    ensures r == 30.0 + 8.0 * rank as real || r == MinReal(canvas.width as real, canvas.height as real) / 3.0
    ensures r >= 0.0
  {
    MinReal(30.0 + rank as real * 8.0, MinReal(canvas.width as real, canvas.height as real) / 3.0)
  }

  /** The radius never shrinks as the rank grows. */
  lemma RadiusMonotone(i: nat, j: nat, canvas: Canvas)
    requires i <= j
    ensures Radius(i, canvas) <= Radius(j, canvas)
  {
  }

  datatype Point = Point(x: real, y: real)

  /** The unclamped spiral point for a word at `rank`: centred on the canvas,
      `cosA`/`sinA` the cosine and sine of `rank * 0.5`. */
  function SpiralPoint(rank: nat, canvas: Canvas, fontSize: real, textWidth: real, cosA: real, sinA: real): Point {
    var radius := Radius(rank, canvas);
    Point(canvas.width as real / 2.0 + cosA * radius - textWidth / 2.0,
          canvas.height as real / 2.0 + sinA * radius + fontSize / 3.0)
  }

  /** The spiral point clamped into the canvas: `x` into
      `[10, width - textWidth - 10]`, `y` into `[fontSize, height - 10]`. The
      lower bounds hold always; each upper bound only when its window is not
      empty, since `Math.max` is applied last. */
  function Place(rank: nat, canvas: Canvas, fontSize: real, textWidth: real, cosA: real, sinA: real): (p: Point)
    ensures p.x >= Margin
    ensures p.y >= fontSize
    ensures canvas.width as real - textWidth >= 2.0 * Margin ==> p.x <= canvas.width as real - textWidth - Margin
    ensures canvas.height as real - Margin >= fontSize ==> p.y <= canvas.height as real - Margin
    ensures var s := SpiralPoint(rank, canvas, fontSize, textWidth, cosA, sinA);
      Margin <= s.x <= canvas.width as real - textWidth - Margin ==> p.x == s.x
    ensures var s := SpiralPoint(rank, canvas, fontSize, textWidth, cosA, sinA);
      fontSize <= s.y <= canvas.height as real - Margin ==> p.y == s.y
  {
    var s := SpiralPoint(rank, canvas, fontSize, textWidth, cosA, sinA);
    Point(Clamp(Margin, canvas.width as real - textWidth - Margin, s.x),
          Clamp(fontSize, canvas.height as real - Margin, s.y))
  }

  /** The drawing surface the layout depends on: text measurement at a font
      size (`ctx.measureText` under `bold <size>px ...`) and the trigonometric
      functions, all opaque. */
  datatype Surface = Surface(measure: (string, real) -> real, cos: real -> real, sin: real -> real)

  /** One word ready to draw. */
  datatype Placed = Placed(text: string, fontSize: real, colour: string, x: real, y: real)

  /** `createCustomWordCloud`'s sizing and placement. `None` when a font size
      is `NaN`, which happens exactly when the first and last counts agree. */
  method Layout(words: seq<Entry>, canvas: Canvas, surface: Surface) returns (placed: Option<seq<Placed>>)
    requires |words| > 0
    ensures placed.None? <==> words[0].count == words[|words| - 1].count
    ensures placed.Some? ==> |placed.value| == |words|
    ensures placed.Some? ==> forall i :: 0 <= i < |words| ==>
      var w := placed.value[i];
      var width := surface.measure(w.text, w.fontSize);
      && w.text == words[i].word
      && Point(w.x, w.y) == Place(i, canvas, w.fontSize, width, surface.cos(i as real * 0.5), surface.sin(i as real * 0.5))
      && FontSize(words[i].count, words[|words| - 1].count, words[0].count) == Some(w.fontSize)
      && MinFontSize <= w.fontSize <= MaxFontSize
      && w.colour == Palette[i % |Palette|]
      && w.x >= Margin
      && w.y >= w.fontSize
      && (canvas.width as real - width >= 2.0 * Margin ==> w.x <= canvas.width as real - width - Margin)
      && (canvas.height as real - Margin >= w.fontSize ==> w.y <= canvas.height as real - Margin)
  {
    var maxCount, minCount := words[0].count, words[|words| - 1].count;
    if maxCount == minCount {
      return None;
    }
    var out: seq<Placed> := [];
    var i := 0;
    while i < |words|
      invariant 0 <= i <= |words|
      invariant |out| == i
      invariant forall k :: 0 <= k < i ==>
        var w := out[k];
        var width := surface.measure(w.text, w.fontSize);
        && w.text == words[k].word
        && Point(w.x, w.y) == Place(k, canvas, w.fontSize, width, surface.cos(k as real * 0.5), surface.sin(k as real * 0.5))
        && FontSize(words[k].count, minCount, maxCount) == Some(w.fontSize)
        && MinFontSize <= w.fontSize <= MaxFontSize
        && w.colour == Palette[k % |Palette|]
        && w.x >= Margin
        && w.y >= w.fontSize
        && (canvas.width as real - width >= 2.0 * Margin ==> w.x <= canvas.width as real - width - Margin)
        && (canvas.height as real - Margin >= w.fontSize ==> w.y <= canvas.height as real - Margin)
    {
      var size := FontSize(words[i].count, minCount, maxCount);
      assert size.Some?;
      var fontSize := size.value;
      var width := surface.measure(words[i].word, fontSize);
      var angle := i as real * 0.5;
      var p := Place(i, canvas, fontSize, width, surface.cos(angle), surface.sin(angle));
      out := out + [Placed(words[i].word, fontSize, ColourAt(i), p.x, p.y)];
      i := i + 1;
    }
    return Some(out);
  }
}
