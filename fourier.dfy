/** Epicycle extraction and synthesis (app/utils/fourierTransform.ts).
    Extraction centres the points on their centroid, builds a complex transform out of two
    runs of a real power-of-two FFT, emits two epicycles per coefficient and orders them by
    magnitude; synthesis sums the epicycles' contributions at a time t.
    The real FFT (the `fft-js` package), cos and sin are parameters: nothing is assumed of
    them beyond the FFT returning as many coefficients as it is given samples. */
module Fourier {
  import opened Js
  import opened Sorting

  datatype Point = Point(x: real, y: real)

  datatype Complex = Complex(re: real, im: real)

  /** One rotating vector: its contribution at time t is
      amplitude * (cos(frequency * t + phase), sin(frequency * t + phase)). */
  datatype Epicycle = Epicycle(amplitude: real, frequency: real, phase: real)

  /** The interface `fft.fft` offers: one (re, im) coefficient per input sample. */
  ghost predicate PreservesLength(fft: seq<real> -> seq<Complex>)
  {
    forall s: seq<real> :: |fft(s)| == |s|
  }

  // ---------------------------------------------------------------- complex transform

  predicate IsPowerOfTwo(n: nat)
  {
    if n == 1 then true else n >= 2 && n % 2 == 0 && IsPowerOfTwo(n / 2)
  }

  /** `Math.pow(2, Math.ceil(Math.log2(N)))`: for N > 0 the least power of two not below N
      (the next lower power, size / 2, is below N); for N = 0, log2 gives -Infinity and the
      power is 0. */
  function FftSize(n: nat): (size: nat)
    ensures n == 0 ==> size == 0
    ensures n > 0 ==> IsPowerOfTwo(size) && n <= size < 2 * n
  {
    if n == 0 then 0 else DoubleUntilAtLeast(1, n)
  }

  function DoubleUntilAtLeast(p: nat, n: nat): (size: nat)
    requires IsPowerOfTwo(p) && 0 < p < 2 * n
    ensures IsPowerOfTwo(size) && n <= size < 2 * n
    decreases n - p
  {
    if p >= n then p
    else
      assert (2 * p) / 2 == p;
      DoubleUntilAtLeast(2 * p, n)
  }

  function RealParts(points: seq<Complex>): (r: seq<real>)
    ensures |r| == |points| && forall i :: 0 <= i < |points| ==> r[i] == points[i].re
  {
    seq(|points|, i requires 0 <= i < |points| => points[i].re)
  }

  function ImagParts(points: seq<Complex>): (r: seq<real>)
    ensures |r| == |points| && forall i :: 0 <= i < |points| ==> r[i] == points[i].im
  {
    seq(|points|, i requires 0 <= i < |points| => points[i].im)
  }

  /** `xs` followed by zeros up to `size` (padding, never wrapping). */
  function ZeroPad(xs: seq<real>, size: nat): (r: seq<real>)
    requires |xs| <= size
    ensures |r| == size
    ensures r[..|xs|] == xs
    ensures forall i :: |xs| <= i < size ==> r[i] == 0.0
  {
    seq(size, i requires 0 <= i < size => if i < |xs| then xs[i] else 0.0)
  }

  function Add(a: Complex, b: Complex): Complex
  {
    Complex(a.re + b.re, a.im + b.im)
  }

  function Mul(a: Complex, b: Complex): Complex
  {
    Complex(a.re * b.re - a.im * b.im, a.re * b.im + a.im * b.re)
  }

  const I: Complex := Complex(0.0, 1.0)

  /** The first n slots of FFT(a) + i * FFT(b), given R = FFT(a) and Q = FFT(b). */
  function Recombine(r: seq<Complex>, q: seq<Complex>, n: nat): (c: seq<Complex>)
    requires n <= |r| && n <= |q|
    ensures |c| == n
    ensures forall k :: 0 <= k < n ==> c[k] == Add(r[k], Mul(I, q[k]))
  {
    seq(n, k requires 0 <= k < n => Complex(r[k].re - q[k].im, r[k].im + q[k].re))
  }

  /** What `complexFFT` computes from N samples: the real transforms of the zero-padded real
      and imaginary parts, recombined, of which only the first N slots are kept. */
  function Transform(points: seq<Complex>, fft: seq<real> -> seq<Complex>): (c: seq<Complex>)
    requires PreservesLength(fft)
    ensures |c| == |points|
  {
    var size := FftSize(|points|);
    Recombine(fft(ZeroPad(RealParts(points), size)), fft(ZeroPad(ImagParts(points), size)), |points|)
  }

  /** `complexFFT`: pushes the padded signals, runs the real FFT on each, pushes the
      recombined coefficients. */
  method ComplexFFT(points: seq<Complex>, fft: seq<real> -> seq<Complex>) returns (result: seq<Complex>)
    requires PreservesLength(fft)
    ensures |result| == |points|
    ensures result == Transform(points, fft)
  {
    var n := |points|;
    var fftSize := FftSize(n);
    ghost var paddedRe := ZeroPad(RealParts(points), fftSize);
    ghost var paddedIm := ZeroPad(ImagParts(points), fftSize);
    var realSignal: seq<real> := [];
    var imagSignal: seq<real> := [];
    var i := 0;
    while i < fftSize
      invariant 0 <= i <= fftSize
      invariant realSignal == paddedRe[..i]
      invariant imagSignal == paddedIm[..i]
    {
      if i < n {
        realSignal := realSignal + [points[i].re];
        imagSignal := imagSignal + [points[i].im];
      } else {
        realSignal := realSignal + [0.0];
        imagSignal := imagSignal + [0.0];
      }
      assert paddedRe[..i + 1] == paddedRe[..i] + [paddedRe[i]];
      assert paddedIm[..i + 1] == paddedIm[..i] + [paddedIm[i]];
      i := i + 1;
    }
    assert realSignal == paddedRe && imagSignal == paddedIm;
    var realFFT := fft(realSignal);
    var imagFFT := fft(imagSignal);
    result := [];
    i := 0;
    while i < n
      invariant 0 <= i <= n
      invariant result == Recombine(realFFT, imagFFT, n)[..i]
    {
      result := result + [Complex(realFFT[i].re - imagFFT[i].im, realFFT[i].im + imagFFT[i].re)];
      i := i + 1;
    }
  }

  // ---------------------------------------------------------------- extraction

  function SumX(points: seq<Point>): real
  {
    if points == [] then 0.0 else points[0].x + SumX(points[1..])
  }

  function SumY(points: seq<Point>): real
  {
    if points == [] then 0.0 else points[0].y + SumY(points[1..])
  }

  function SumRe(points: seq<Complex>): real
  {
    if points == [] then 0.0 else points[0].re + SumRe(points[1..])
  }

  function SumIm(points: seq<Complex>): real
  {
    if points == [] then 0.0 else points[0].im + SumIm(points[1..])
  }

  /** The arithmetic mean of the points (the two `reduce` sums divided by the count). */
  function Centroid(points: seq<Point>): Point
    requires points != []
  {
    Point(SumX(points) / |points| as real, SumY(points) / |points| as real)
  }

  /** Each point taken relative to `centre`, as a complex number. */
  function RelativeTo(points: seq<Point>, centre: Point): (c: seq<Complex>)
    ensures |c| == |points|
    ensures forall i :: 0 <= i < |points| ==>
      c[i] == Complex(points[i].x - centre.x, points[i].y - centre.y)
  {
    seq(|points|, i requires 0 <= i < |points| => Complex(points[i].x - centre.x, points[i].y - centre.y))
  }

  /** `complexPoints`: the samples relative to their centroid. */
  function Centered(points: seq<Point>): (c: seq<Complex>)
    requires points != []
    ensures |c| == |points|
  {
    RelativeTo(points, Centroid(points))
  }

  lemma {:induction false} SumOfRelative(points: seq<Point>, centre: Point)
    ensures SumRe(RelativeTo(points, centre)) == SumX(points) - |points| as real * centre.x
    ensures SumIm(RelativeTo(points, centre)) == SumY(points) - |points| as real * centre.y
  {
    if points != [] {
      SumOfRelative(points[1..], centre);
      assert RelativeTo(points, centre)[1..] == RelativeTo(points[1..], centre);
      assert (|points| - 1) as real * centre.x + centre.x == |points| as real * centre.x;
      assert (|points| - 1) as real * centre.y + centre.y == |points| as real * centre.y;
    }
  }

  /** Centring works: the centred samples sum to zero in both coordinates. */
  lemma CenteredSumsToZero(points: seq<Point>)
    requires points != []
    ensures SumRe(Centered(points)) == 0.0 && SumIm(Centered(points)) == 0.0
  {
    var n := |points| as real;
    SumOfRelative(points, Centroid(points));
    assert n * (SumX(points) / n) == SumX(points);
    assert n * (SumY(points) / n) == SumY(points);
  }

  /** `freq = -2 * Math.PI * i / N`. */
  function Frequency(i: nat, n: nat): real
    requires n > 0
  {
    -2.0 * PI * (i as real) / (n as real)
  }

  /** The two epicycles coefficient c at index i stands for: the real part at phase pi/2,
      then the imaginary part at phase 0, both scaled by -1/N and turning at the i-th frequency. */
  function EpicyclePair(c: Complex, i: nat, n: nat): (pair: seq<Epicycle>)
    requires n > 0
    ensures |pair| == 2
  {
    [Epicycle(-c.re / n as real, Frequency(i, n), PI / 2.0), Epicycle(-c.im / n as real, Frequency(i, n), 0.0)]
  }

  /** The list the extraction loop pushes, before it is sorted. */
  function EpicyclesOf(coefficients: seq<Complex>, n: nat): (r: seq<Epicycle>)
    requires n > 0
    ensures |r| == 2 * |coefficients|
  {
    if coefficients == [] then []
    else
      var last := |coefficients| - 1;
      EpicyclesOf(coefficients[..last], n) + EpicyclePair(coefficients[last], last, n)
  }

  lemma EpicyclesOfSnoc(coefficients: seq<Complex>, i: nat, n: nat)
    requires n > 0 && i < |coefficients|
    ensures EpicyclesOf(coefficients[..i + 1], n)
      == EpicyclesOf(coefficients[..i], n) + EpicyclePair(coefficients[i], i, n)
  {
    assert coefficients[..i + 1][..i] == coefficients[..i];
  }

  /** Slots 2i and 2i+1 of the emitted list hold the pair of coefficient i: its real part
      scaled by -1/N at phase pi/2, then its imaginary part scaled by -1/N at phase 0, both
      turning at the i-th frequency. */
  lemma {:induction false} EpicyclesOfAt(coefficients: seq<Complex>, n: nat, i: nat)
    requires n > 0 && i < |coefficients|
    ensures EpicyclesOf(coefficients, n)[2 * i]
      == Epicycle(-coefficients[i].re / n as real, Frequency(i, n), PI / 2.0)
    ensures EpicyclesOf(coefficients, n)[2 * i + 1]
      == Epicycle(-coefficients[i].im / n as real, Frequency(i, n), 0.0)
  {
    var last := |coefficients| - 1;
    if i < last {
      EpicyclesOfAt(coefficients[..last], n, i);
      assert coefficients[..last][i] == coefficients[i];
    }
  }

  /** Every emitted epicycle has phase pi/2 or 0 and the frequency of coefficient j / 2. */
  lemma EmittedShape(coefficients: seq<Complex>, n: nat, j: nat)
    requires n > 0 && j < 2 * |coefficients|
    ensures EpicyclesOf(coefficients, n)[j].phase in {PI / 2.0, 0.0}
    ensures EpicyclesOf(coefficients, n)[j].frequency == Frequency(j / 2, n)
  {
    EpicyclesOfAt(coefficients, n, j / 2);
  }

  /** The sort key: |amplitude|. */
  function Magnitude(e: Epicycle): real
  {
    if e.amplitude < 0.0 then -e.amplitude else e.amplitude
  }

  /** The extraction loop of `pointsToEpicycles`: for each coefficient, in index order, the
      pair of epicycles it stands for. */
  method EmitEpicycles(fftResult: seq<Complex>, n: nat) returns (epicycles: seq<Epicycle>)
    requires n > 0
    ensures epicycles == EpicyclesOf(fftResult, n)
  {
    epicycles := [];
    var i := 0;
    while i < |fftResult|
      invariant 0 <= i <= |fftResult|
      invariant epicycles == EpicyclesOf(fftResult[..i], n)
    {
      var c := fftResult[i];
      var freq := -2.0 * PI * (i as real) / (n as real);
      epicycles := epicycles + [Epicycle(-c.re / n as real, freq, PI / 2.0)];
      epicycles := epicycles + [Epicycle(-c.im / n as real, freq, 0.0)];
      EpicyclesOfSnoc(fftResult, i, n);
      i := i + 1;
    }
    assert fftResult[..i] == fftResult;
  }

  /** `pointsToEpicycles`: empty input gives no epicycles; otherwise exactly 2N epicycles,
      the emitted list reordered (a permutation of it) by non-increasing |amplitude|. */
  method PointsToEpicycles(points: seq<Point>, fft: seq<real> -> seq<Complex>) returns (epicycles: seq<Epicycle>)
    requires PreservesLength(fft)
    ensures points == [] ==> epicycles == []
    ensures |epicycles| == 2 * |points|
    ensures SortedDescending(epicycles, Magnitude)
    ensures points != [] ==>
      multiset(epicycles) == multiset(EpicyclesOf(Transform(Centered(points), fft), |points|))
    ensures points != [] ==>
      epicycles == SortDescending(EpicyclesOf(Transform(Centered(points), fft), |points|), Magnitude)
  {
    if |points| == 0 {
      return [];
    }
    var centre := Centroid(points);
    var complexPoints := RelativeTo(points, centre);
    var fftResult := ComplexFFT(complexPoints, fft);
    var n := |points|;
    epicycles := EmitEpicycles(fftResult, n);
    assert fftResult == Transform(Centered(points), fft);
    SortDescendingSorts(epicycles, Magnitude);
    epicycles := SortDescending(epicycles, Magnitude);
  }

  // ---------------------------------------------------------------- synthesis

  function PlusPoint(a: Point, b: Point): Point
  {
    Point(a.x + b.x, a.y + b.y)
  }

  /** One epicycle's contribution at time t. */
  function Contribution(e: Epicycle, t: real, cos: real -> real, sin: real -> real): Point
  {
    var angle := e.frequency * t + e.phase;
    Point(e.amplitude * cos(angle), e.amplitude * sin(angle))
  }

  /** The superposition of all contributions at time t. */
  function Position(epicycles: seq<Epicycle>, t: real, cos: real -> real, sin: real -> real): Point
  {
    if epicycles == [] then Point(0.0, 0.0)
    else PlusPoint(Contribution(epicycles[0], t, cos, sin), Position(epicycles[1..], t, cos, sin))
  }

  /** The empty set sits at the origin, and the position of a concatenation is the sum of
      the positions of its parts. */
  lemma {:induction false} PositionAdditive(a: seq<Epicycle>, b: seq<Epicycle>, t: real, cos: real -> real, sin: real -> real)
    ensures Position([], t, cos, sin) == Point(0.0, 0.0)
    ensures Position(a + b, t, cos, sin) == PlusPoint(Position(a, t, cos, sin), Position(b, t, cos, sin))
  {
    if a != [] {
      assert (a + b)[1..] == a[1..] + b;
      PositionAdditive(a[1..], b, t, cos, sin);
    } else {
      assert a + b == b;
    }
  }

  lemma {:induction false} PositionOfInsert(x: Epicycle, s: seq<Epicycle>, key: Epicycle -> real, t: real, cos: real -> real, sin: real -> real)
    ensures Position(Insert(x, s, key), t, cos, sin) == PlusPoint(Contribution(x, t, cos, sin), Position(s, t, cos, sin))
  {
    if !(s == [] || key(x) >= key(s[0])) {
      PositionOfInsert(x, s[1..], key, t, cos, sin);
    }
  }

  /** The render does not depend on the order of the epicycles, so the magnitude sort of
      the extraction moves no point of the curve. */
  lemma {:induction false} PositionIgnoresSorting(s: seq<Epicycle>, key: Epicycle -> real, t: real, cos: real -> real, sin: real -> real)
    ensures Position(SortDescending(s, key), t, cos, sin) == Position(s, t, cos, sin)
  {
    if s != [] {
      PositionIgnoresSorting(s[1..], key, t, cos, sin);
      PositionOfInsert(s[0], SortDescending(s[1..], key), key, t, cos, sin);
    }
  }

  /** Appending one epicycle adds its contribution. */
  lemma PositionSnoc(s: seq<Epicycle>, e: Epicycle, t: real, cos: real -> real, sin: real -> real)
    ensures Position(s + [e], t, cos, sin) ==
      Point(Position(s, t, cos, sin).x + e.amplitude * cos(e.frequency * t + e.phase),
            Position(s, t, cos, sin).y + e.amplitude * sin(e.frequency * t + e.phase))
  {
    PositionAdditive(s, [e], t, cos, sin);
    assert [e][1..] == [];
    assert Position([e], t, cos, sin) == PlusPoint(Contribution(e, t, cos, sin), Point(0.0, 0.0));
  }

  /** `calculatePosition`: the accumulator loop over the epicycles. */
  method CalculatePosition(epicycles: seq<Epicycle>, t: real, cos: real -> real, sin: real -> real) returns (p: Point)
    ensures p == Position(epicycles, t, cos, sin)
  {
    var x := 0.0;
    var y := 0.0;
    var i := 0;
    while i < |epicycles|
      invariant 0 <= i <= |epicycles|
      invariant Point(x, y) == Position(epicycles[..i], t, cos, sin)
    {
      var e := epicycles[i];
      var angle := e.frequency * t + e.phase;
      PositionSnoc(epicycles[..i], e, t, cos, sin);
      assert epicycles[..i + 1] == epicycles[..i] + [e];
      x := x + e.amplitude * cos(angle);
      y := y + e.amplitude * sin(angle);
      i := i + 1;
    }
    assert epicycles[..i] == epicycles;
    p := Point(x, y);
  }

  /** `t = (i / numPoints) * 2 * Math.PI`: each sample time lies in [0, 2 pi). */
  function SampleTime(i: nat, numPoints: nat): (t: real)
    requires i < numPoints
    ensures 0.0 <= t < 2.0 * PI
  {
    var n := numPoints as real;
    assert (i as real) / n < 1.0 by {
      assert (i as real) / n * n == i as real;
    }
    (i as real) / n * 2.0 * PI
  }

  /** The sample times climb strictly. */
  lemma SampleTimesIncrease(i: nat, j: nat, numPoints: nat)
    requires i < j < numPoints
    ensures SampleTime(i, numPoints) < SampleTime(j, numPoints)
  {
    var n := numPoints as real;
    assert (j as real) / n - (i as real) / n == (j - i) as real / n;
  }

  /** `generatePath`: exactly numPoints samples, sample i taken at SampleTime(i). */
  method GeneratePath(epicycles: seq<Epicycle>, numPoints: nat, cos: real -> real, sin: real -> real) returns (path: seq<Point>)
    ensures |path| == numPoints
    ensures forall i :: 0 <= i < numPoints ==> path[i] == Position(epicycles, SampleTime(i, numPoints), cos, sin)
  {
    path := [];
    var i := 0;
    while i < numPoints
      invariant 0 <= i <= numPoints
      invariant |path| == i
      invariant forall j :: 0 <= j < i ==> path[j] == Position(epicycles, SampleTime(j, numPoints), cos, sin)
    {
      var t := (i as real / numPoints as real) * 2.0 * PI;
      var p := CalculatePosition(epicycles, t, cos, sin);
      path := path + [p];
      i := i + 1;
    }
  }
}
