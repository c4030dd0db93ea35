/** The integer layer of icon_blurhash.c: base-83 digits, the packing of a hash, and the box downscaling. The cosine
    transform is outside: its quantized results are inputs. */
module BlurHash {

  import opened Arith

  const SPECIALS: string := "#$%*+,-.:;=?@[]^_{|}~"

  /** k_base83_chars: digits, upper and lower case letters, specials. */
  function Char(d: nat): char
    requires d < 83
  {
    if d < 10 then (48 + d) as char
    else if d < 36 then (55 + d) as char
    else if d < 62 then (61 + d) as char
    else SPECIALS[d - 62]
  }

  /** The specials are in ascending order, so no two digits look the same. */
  lemma SpecialsRise(i: nat, j: nat)
    requires i < j < 21
    ensures SPECIALS[i] < SPECIALS[j]
    decreases j
  {
    StepRises(j);
    if i < j - 1 { SpecialsRise(i, j - 1); }
  }

  lemma StepRises(j: nat)
    requires 1 <= j < 21
    ensures SPECIALS[j - 1] < SPECIALS[j]
  {
    if j <= 10 {
      assert j in {1, 2, 3, 4, 5, 6, 7, 8, 9, 10};
    } else {
      assert j in {11, 12, 13, 14, 15, 16, 17, 18, 19, 20};
    }
  }

  predicate Alphanumeric(c: char) { '0' <= c <= '9' || 'A' <= c <= 'Z' || 'a' <= c <= 'z' }

  lemma SpecialApart(j: nat)
    requires j < 21
    ensures !Alphanumeric(SPECIALS[j])
  {
    if j < 11 {
      assert j in {0, 1, 2, 3, 4, 5, 6, 7, 8, 9, 10};
    } else {
      assert j in {11, 12, 13, 14, 15, 16, 17, 18, 19, 20};
    }
  }

  lemma CharsDiffer(d: nat, e: nat)
    requires d < e < 83
    ensures Char(d) != Char(e)
  {
    if e >= 62 {
      SpecialApart(e - 62);
      if d >= 62 { SpecialsRise(d - 62, e - 62); }
    }
  }

  /** The first digit from d on that looks like c, or 83: what a reader of the hash looks up. */
  function LookUp(c: char, d: nat): (e: nat)
    requires d <= 83
    ensures d <= e <= 83 && (e < 83 ==> Char(e) == c)
    decreases 83 - d
  {
    if d == 83 || Char(d) == c then d else LookUp(c, d + 1)
  }

  lemma LookUpFinds(d: nat, from: nat)
    requires from <= d < 83
    ensures LookUp(Char(d), from) == d
    decreases d - from
  {
    if from < d {
      CharsDiffer(from, d);
      LookUpFinds(d, from + 1);
    }
  }

  // ---------------------------------------------------------------- base 83

  function Pow83(n: nat): (p: nat)
    ensures p > 0
  {
    if n == 0 then 1 else 83 * Pow83(n - 1)
  }

  /** The digits of a value, most significant first, cut to the given length. */
  function Digits(value: nat, length: nat): (s: string)
    ensures |s| == length
  {
    if length == 0 then [] else Digits(value / 83, length - 1) + [Char(value % 83)]
  }

  function ValueOf(s: string): nat {
    if s == [] then 0 else ValueOf(s[..|s| - 1]) * 83 + LookUp(s[|s| - 1], 0)
  }

  lemma {:induction false} DigitsBelow(value: nat, length: nat)
    ensures ValueOf(Digits(value, length)) < Pow83(length)
    ensures value < Pow83(length) ==> ValueOf(Digits(value, length)) == value
  {
    if length > 0 {
      var s := Digits(value, length);
      assert s[..length - 1] == Digits(value / 83, length - 1) && s[length - 1] == Char(value % 83);
      DigitsBelow(value / 83, length - 1);
      LookUpFinds(value % 83, 0);
    }
  }

  /** Digits read back as the value exactly when there are enough of them. */
  lemma DigitsExact(value: nat, length: nat)
    ensures ValueOf(Digits(value, length)) == value <==> value < Pow83(length)
  {
    hide ValueOf, Digits, Pow83;
    DigitsBelow(value, length);
  }

  function Reverse(s: string): (r: string)
    ensures |r| == |s|
  {
    if s == [] then [] else Reverse(s[1..]) + [s[0]]
  }

  lemma {:induction false} ReverseAt(s: string, k: nat)
    requires k < |s|
    ensures Reverse(s)[k] == s[|s| - 1 - k]
  {
    if k < |s| - 1 { ReverseAt(s[1..], k); }
  }

  lemma {:induction false} ReverseLast(s: string, c: char)
    ensures Reverse(s + [c]) == [c] + Reverse(s)
  {
    if s == [] {
      assert [c][1..] == [];
    } else {
      assert (s + [c])[1..] == s[1..] + [c];
      ReverseLast(s[1..], c);
    }
  }

  method Scratch(value: nat, length: nat) returns (tmp: array<char>)
    requires length <= 8
    ensures fresh(tmp) && tmp.Length == 8 && Reverse(tmp[..length]) == Digits(value, length)
  {
    hide Reverse, Char;
    tmp := new char[8](_ => '0');
    var v, i := value, 0;
    ReverseEmpty();
    assert Digits(v, length) + Reverse(tmp[..0]) == Digits(value, length);
    while i < length
      invariant i <= length
      invariant Digits(v, length - i) + Reverse(tmp[..i]) == Digits(value, length)
    {
      ghost var before, digit := tmp[..i], Char(v % 83);
      tmp[i] := Char(v % 83);
      assert tmp[..i + 1] == before + [digit];
      ReverseLast(before, digit);
      assert Digits(v, length - i) == Digits(v / 83, length - i - 1) + [digit];
      assert (Digits(v / 83, length - i - 1) + [digit]) + Reverse(before)
          == Digits(v / 83, length - i - 1) + ([digit] + Reverse(before));
      v := v / 83;
      i := i + 1;
    }
  }

  lemma ReverseEmpty()
    ensures Reverse([]) == []
  {}

  /** encode_base83: least significant digit first into a scratch buffer, then backwards into the output. */
  method EncodeBase83(out: array<char>, at: nat, value: nat, length: nat) returns (pos: nat)
    requires length <= 8 && at + length <= out.Length
    modifies out
    ensures pos == at + length
    ensures out[..at] == old(out[..at]) && out[at..pos] == Digits(value, length)
    ensures out[..pos] == old(out[..at]) + Digits(value, length)
  {
    hide Digits, Reverse, Char;
    var tmp := Scratch(value, length);
    pos := at;
    var k := length;
    ghost var digits := Digits(value, length);
    forall j | 0 <= j < length ensures digits[j] == tmp[length - 1 - j] {
      ReverseAt(tmp[..length], j);
    }
    while k > 0
      invariant 0 <= k <= length && pos == at + length - k
      invariant forall j | 0 <= j < at :: out[j] == old(out[j])
      invariant forall j | at <= j < pos :: out[j] == digits[j - at]
      invariant forall j | 0 <= j < length :: digits[j] == tmp[length - 1 - j]
    {
      k := k - 1;
      assert digits[length - 1 - k] == tmp[k];
      out[pos] := tmp[k];
      pos := pos + 1;
    }
    assert out[..at] == old(out[..at]) && out[at..pos] == digits;
    assert out[..pos] == out[..at] + out[at..pos];
  }

  // ---------------------------------------------------------------- the hash

  datatype Color = Color(r: nat, g: nat, b: nat)

  /** What a hash says: the numbers of components, the quantized scale, the average color and the other components. */
  datatype Hash = Hash(xComp: nat, yComp: nat, quantMax: nat, dc: Color, ac: seq<Color>)

  predicate Below(c: Color, n: nat) { c.r < n && c.g < n && c.b < n }

  predicate HashOk(h: Hash) {
    && 1 <= h.xComp <= 9 && 1 <= h.yComp <= 9 && h.quantMax <= 82 && Below(h.dc, 256)
    && |h.ac| == h.xComp * h.yComp - 1 && forall k | 0 <= k < |h.ac| :: Below(h.ac[k], 19)
  }

  function PackDc(c: Color): nat { c.r * 65536 + c.g * 256 + c.b }

  function PackAc(c: Color): nat { c.r * 361 + c.g * 19 + c.b }

  function AcText(ac: seq<Color>): string {
    if ac == [] then [] else AcText(ac[..|ac| - 1]) + Digits(PackAc(ac[|ac| - 1]), 2)
  }

  function Text(h: Hash): string
    requires HashOk(h)
  {
    Digits(h.xComp - 1 + (h.yComp - 1) * 9, 1) + Digits(h.quantMax, 1) + Digits(PackDc(h.dc), 4) + AcText(h.ac)
  }

  // ---- an independent reader

  function UnpackDc(v: nat): Color { Color(v / 65536, v / 256 % 256, v % 256) }

  function UnpackAc(v: nat): Color { Color(v / 361, v / 19 % 19, v % 19) }

  function ReadAc(s: string): seq<Color> {
    if |s| < 2 then [] else ReadAc(s[..|s| - 2]) + [UnpackAc(ValueOf(s[|s| - 2..]))]
  }

  function Read(s: string): Hash
    requires |s| >= 6
  {
    var size := ValueOf(s[..1]);
    Hash(size % 9 + 1, size / 9 + 1, ValueOf(s[1..2]), UnpackDc(ValueOf(s[2..6])), ReadAc(s[6..]))
  }

  lemma AcOneRead(c: Color)
    requires Below(c, 19)
    ensures UnpackAc(ValueOf(Digits(PackAc(c), 2))) == c
  {
    hide ValueOf, Digits, Below, UnpackAc, PackAc;
    assert Pow83(1) == 83 && Pow83(2) == 6889;
    AcUnpacked(c);
    DigitsExact(PackAc(c), 2);
  }

  lemma AcUnpacked(c: Color)
    requires Below(c, 19)
    ensures PackAc(c) < 6889 && UnpackAc(PackAc(c)) == c
  {
    Quotient(PackAc(c), 361, c.r);
    Quotient(PackAc(c), 19, 19 * c.r + c.g);
    Quotient(19 * c.r + c.g, 19, c.r);
  }

  lemma {:induction false} AcRead(ac: seq<Color>)
    requires forall k | 0 <= k < |ac| :: Below(ac[k], 19)
    ensures |AcText(ac)| == 2 * |ac| && ReadAc(AcText(ac)) == ac
  {
    hide Below, ValueOf, Digits, PackAc, UnpackAc;
    if ac != [] {
      var c, s := ac[|ac| - 1], AcText(ac);
      AcRead(ac[..|ac| - 1]);
      assert s[..|s| - 2] == AcText(ac[..|ac| - 1]) && s[|s| - 2..] == Digits(PackAc(c), 2);
      AcOneRead(c);
      assert ac == ac[..|ac| - 1] + [c];
    }
  }

  /** A hash is 4 + 2 * x * y characters long and says what was packed into it: 19^3 < 83^2 and 2^24 < 83^4. */
  lemma HashRead(h: Hash)
    requires HashOk(h)
    ensures |Text(h)| == 4 + 2 * (h.xComp * h.yComp) && Read(Text(h)) == h
  {
    hide Digits, ValueOf, AcText, ReadAc, Below, PackDc, UnpackDc, Pow83;
    var s, size := Text(h), h.xComp - 1 + (h.yComp - 1) * 9;
    AcRead(h.ac);
    Powers();
    SizeSplits(h.xComp, h.yComp);
    DigitsExact(size, 1);
    DigitsExact(h.quantMax, 1);
    DcRead(h.dc);
    DigitsExact(PackDc(h.dc), 4);
    Pieces(Digits(size, 1), Digits(h.quantMax, 1), Digits(PackDc(h.dc), 4), AcText(h.ac));
  }

  lemma Powers()
    ensures Pow83(1) == 83 && Pow83(2) == 6889 && Pow83(3) == 571787 && Pow83(4) == 47458321
  {}

  lemma SizeSplits(xComp: nat, yComp: nat)
    requires 1 <= xComp <= 9 && 1 <= yComp <= 9
    ensures var size := xComp - 1 + (yComp - 1) * 9; size < 83 && size % 9 + 1 == xComp && size / 9 + 1 == yComp
  {}

  lemma Pieces(a: string, b: string, c: string, d: string)
    requires |a| == 1 && |b| == 1 && |c| == 4
    ensures var s := a + b + c + d; s[..1] == a && s[1..2] == b && s[2..6] == c && s[6..] == d
  {}

  lemma DcRead(c: Color)
    requires Below(c, 256)
    ensures PackDc(c) < 0x100_0000 && UnpackDc(PackDc(c)) == c
  {
    var upper := c.r * 256 + c.g;
    var v := upper * 256 + c.b;
    assert PackDc(c) == v;
    Quotient(v, 65536, c.r);
    Quotient(v, 256, upper);
    Quotient(upper, 256, c.r);
  }

  function Clamp(v: int, hi: nat): (c: nat)
    ensures c <= hi
  {
    if v < 0 then 0 else if v > hi then hi else v
  }

  datatype Quantized = Quantized(r: int, g: int, b: int)

  function Clamped(q: Quantized): Color { Color(Clamp(q.r, 18), Clamp(q.g, 18), Clamp(q.b, 18)) }

  const FLAT: Color := Color(9, 9, 9)

  /** What the encoder is to say: components beyond the scale's resolution are all flat. */
  function Intended(xComp: nat, yComp: nat, quantMax: int, dc: Color, ac: seq<Quantized>): Hash {
    Hash(xComp, yComp, Clamp(quantMax, 82), dc,
         seq(|ac|, k requires 0 <= k < |ac| => if Clamp(quantMax, 82) > 0 then Clamped(ac[k]) else FLAT))
  }

  method EncodeHead(out: array<char>, h: Hash)
    requires HashOk(h) && out.Length >= 6
    modifies out
    ensures out[..6] == Digits(h.xComp - 1 + (h.yComp - 1) * 9, 1) + Digits(h.quantMax, 1) + Digits(PackDc(h.dc), 4)
  {
    hide Digits;
    var pos := EncodeBase83(out, 0, h.xComp - 1 + (h.yComp - 1) * 9, 1);
    pos := EncodeBase83(out, pos, h.quantMax, 1);
    pos := EncodeBase83(out, pos, PackDc(h.dc), 4);
  }

  /** blurhash_encode_rgb behind the transform: quantMax, dc and ac are the rounded results of the float stage. */
  method Encode(out: array<char>, xComp: int, yComp: int, quantMax: int, dc: Color, ac: seq<Quantized>)
    returns (code: int)
    requires 1 <= xComp <= 9 && 1 <= yComp <= 9 ==> |ac| == xComp * yComp - 1
    requires Below(dc, 256)
    modifies out
    ensures code == 0 <==> 1 <= xComp <= 9 && 1 <= yComp <= 9 && 4 + 2 * (xComp * yComp) + 1 <= out.Length
    ensures code == 0 || code == -1
    ensures code == 0 ==>
      var h, n := Intended(xComp, yComp, quantMax, dc, ac), 4 + 2 * (xComp * yComp);
      HashOk(h) && out[..n] == Text(h) && out[n] == '\0' && Read(out[..n]) == h
    ensures code == -1 ==> out[..] == old(out[..])
  {
    hide Digits, Read, ReadAc, HashOk, AcText, Clamped, Clamp, PackAc, PackDc;
    if !(1 <= xComp <= 9 && 1 <= yComp <= 9) || out.Length < 4 + 2 * (xComp * yComp) + 1 { return -1; }
    ghost var h := Intended(xComp, yComp, quantMax, dc, ac);
    IntendedOk(xComp, yComp, quantMax, dc, ac);
    HashRead(h);
    var q := Clamp(quantMax, 82);
    FirstSix(xComp, yComp);
    EncodeHead(out, Intended(xComp, yComp, quantMax, dc, ac));
    ghost var head := out[..6];
    AcRead([]);
    assert h.ac[..0] == [];
    var pos, k := 6, 0;
    while k < |ac|
      invariant k <= |ac| && pos == 6 + 2 * k
      invariant out[..pos] == head + AcText(h.ac[..k])
    {
      AcStep(head, h.ac, k);
      var packed := if q > 0 then PackAc(Clamped(ac[k])) else PackAc(FLAT);
      assert packed == PackAc(h.ac[k]);
      pos := EncodeBase83(out, pos, packed, 2);
      k := k + 1;
    }
    assert h.ac[..k] == h.ac;
    out[pos] := '\0';
    assert out[..pos] == Text(h);
    code := 0;
  }

  lemma AcStep(head: string, ac: seq<Color>, k: nat)
    requires k < |ac|
    ensures head + AcText(ac[..k + 1]) == (head + AcText(ac[..k])) + Digits(PackAc(ac[k]), 2)
  {
    hide Digits, PackAc;
    assert ac[..k + 1][..k] == ac[..k];
  }

  lemma FirstSix(xComp: nat, yComp: nat)
    requires 1 <= xComp <= 9 && 1 <= yComp <= 9
    ensures xComp * yComp >= 1
  {}

  lemma IntendedOk(xComp: nat, yComp: nat, quantMax: int, dc: Color, ac: seq<Quantized>)
    requires 1 <= xComp <= 9 && 1 <= yComp <= 9 && |ac| == xComp * yComp - 1 && Below(dc, 256)
    ensures HashOk(Intended(xComp, yComp, quantMax, dc, ac))
  {}

  // ---------------------------------------------------------------- the box downscale

  const SIDE_MAX: nat := 2048
  const SMALL_MAX: nat := 128
  const BACKDROP: Color := Color(20, 21, 32)

  datatype Pixel = Pixel(r: nat, g: nat, b: nat, a: nat)

  /** Rows of pixels. */
  predicate Image(img: seq<seq<Pixel>>, w: nat, h: nat) {
    && |img| == h && (forall y | 0 <= y < h :: |img[y]| == w)
    && forall y, x | 0 <= y < h && 0 <= x < w ::
         img[y][x].r < 256 && img[y][x].g < 256 && img[y][x].b < 256 && img[y][x].a < 256
  }

  function StepFor(w: nat, h: nat): (step: nat)
    ensures step >= 1
  {
    var step := ((if w > h then w else h) + 127) / 128;
    if step < 1 then 1 else step
  }

  function Boxes(n: nat, step: nat): nat
    requires step >= 1
  {
    (n + step - 1) / step
  }

  function BoxEnd(k: nat, step: nat, n: nat): nat { if (k + 1) * step < n then (k + 1) * step else n }

  predicate InBox(k: nat, step: nat, n: nat, p: nat) { k * step <= p < BoxEnd(k, step, n) }

  /** Along one side every pixel lies in exactly one box, none is empty, and there are at most 128. */
  lemma BoxesTile(n: nat, step: nat, k: nat, p: nat)
    requires step >= 1
    ensures p < n ==> (k < Boxes(n, step) && InBox(k, step, n, p) <==> k == p / step)
    ensures k < Boxes(n, step) ==> InBox(k, step, n, k * step)
  {
    Divided(n + step - 1, step);
    Divided(p, step);
    if p < n {
      var q := p / step;
      if k < q { Scaled(k + 1, q, step); }
      if k > q { Scaled(q + 1, k, step); }
      if q >= Boxes(n, step) { Scaled(Boxes(n, step), q, step); }
    }
    if k < Boxes(n, step) {
      Scaled(k + 1, Boxes(n, step), step);
      assert (k + 1) * step == k * step + step;
    }
  }

  lemma BoxesFew(w: nat, h: nat)
    requires w > 0 && h > 0
    ensures 1 <= Boxes(w, StepFor(w, h)) <= SMALL_MAX && 1 <= Boxes(h, StepFor(w, h)) <= SMALL_MAX
  {
    var step := StepFor(w, h);
    assert 128 * step >= w && 128 * step >= h;
    Few(w, step);
    Few(h, step);
  }

  lemma Few(n: nat, step: nat)
    requires 1 <= n <= 128 * step
    ensures 1 <= Boxes(n, step) <= 128
  {
    Divided(n + step - 1, step);
    var k := Boxes(n, step);
    if k >= 129 { Scaled(129, k, step); }
  }

  // ---- sums over a box

  datatype Sum = Sum(r: nat, g: nat, b: nat, n: nat)

  const NOTHING: Sum := Sum(0, 0, 0, 0)

  function Plus(s: Sum, t: Sum): Sum { Sum(s.r + t.r, s.g + t.g, s.b + t.b, s.n + t.n) }

  /** One channel of a pixel laid over the backdrop. */
  function Over(v: nat, a: nat, back: nat): nat
    requires a <= 255
  {
    var inv: nat := 255 - a;
    assert v * a >= 0 && back * inv >= 0 by { Scaled(0, v, a); Scaled(0, back, inv); }
    (v * a + back * inv + 127) / 255
  }

  function Composite(p: Pixel): Sum
    requires p.a <= 255
  {
    Sum(Over(p.r, p.a, BACKDROP.r), Over(p.g, p.a, BACKDROP.g), Over(p.b, p.a, BACKDROP.b), 1)
  }

  function RowSum(row: seq<Pixel>, x0: nat, x1: nat): Sum
    requires x1 <= |row| && forall x | 0 <= x < |row| :: row[x].a < 256
  {
    if x1 <= x0 then NOTHING else Plus(RowSum(row, x0, x1 - 1), Composite(row[x1 - 1]))
  }

  function BoxSum(img: seq<seq<Pixel>>, w: nat, h: nat, y0: nat, y1: nat, x0: nat, x1: nat): Sum
    requires Image(img, w, h) && y1 <= h && x1 <= w
  {
    if y1 <= y0 then NOTHING
    else Plus(BoxSum(img, w, h, y0, y1 - 1, x0, x1), RowSum(img[y1 - 1], x0, x1))
  }

  /** A sum of bytes. */
  predicate Bytes(s: Sum) { s.r <= 255 * s.n && s.g <= 255 * s.n && s.b <= 255 * s.n }

  lemma OverByte(v: nat, a: nat, back: nat)
    requires v < 256 && a < 256 && back < 256
    ensures Over(v, a, back) <= 255
  {
    assert v * a <= 255 * a by { Scaled(v, 255, a); }
    assert back * (255 - a) <= 255 * (255 - a) by { Scaled(back, 255, 255 - a); }
  }

  lemma {:induction false} RowBytes(img: seq<seq<Pixel>>, w: nat, h: nat, y: nat, x0: nat, x1: nat)
    requires Image(img, w, h) && y < h && x0 <= x1 <= w
    ensures Bytes(RowSum(img[y], x0, x1)) && RowSum(img[y], x0, x1).n == x1 - x0
  {
    hide Over;
    if x0 < x1 {
      RowBytes(img, w, h, y, x0, x1 - 1);
      var p := img[y][x1 - 1];
      OverByte(p.r, p.a, BACKDROP.r);
      OverByte(p.g, p.a, BACKDROP.g);
      OverByte(p.b, p.a, BACKDROP.b);
    }
  }

  lemma {:induction false} BoxBytes(img: seq<seq<Pixel>>, w: nat, h: nat, y0: nat, y1: nat, x0: nat, x1: nat)
    requires Image(img, w, h) && y0 <= y1 <= h && x0 <= x1 <= w
    ensures Bytes(BoxSum(img, w, h, y0, y1, x0, x1)) && BoxSum(img, w, h, y0, y1, x0, x1).n == (y1 - y0) * (x1 - x0)
  {
    hide RowSum, Image;
    if y0 < y1 {
      BoxBytes(img, w, h, y0, y1 - 1, x0, x1);
      RowBytes(img, w, h, y1 - 1, x0, x1);
      assert (y1 - y0) * (x1 - x0) == (y1 - 1 - y0) * (x1 - x0) + (x1 - x0);
    }
  }

  /** The rounded mean. */
  function Mean(sum: nat, n: nat): nat
    requires n > 0
  {
    (sum + n / 2) / n
  }

  lemma MeanByte(sum: nat, n: nat)
    requires n > 0 && sum <= 255 * n
    ensures Mean(sum, n) <= 255
  {
    Divided(sum + n / 2, n);
    if Mean(sum, n) >= 256 { Scaled(256, Mean(sum, n), n); }
  }

  function BoxColor(img: seq<seq<Pixel>>, w: nat, h: nat, step: nat, y: nat, x: nat): (c: Color)
    requires Image(img, w, h) && step >= 1 && y < Boxes(h, step) && x < Boxes(w, step)
    ensures Below(c, 256)
  {
    BoxesTile(h, step, y, 0);
    BoxesTile(w, step, x, 0);
    var s := BoxSum(img, w, h, y * step, BoxEnd(y, step, h), x * step, BoxEnd(x, step, w));
    BoxFilled(img, w, h, y * step, BoxEnd(y, step, h), x * step, BoxEnd(x, step, w));
    MeanByte(s.r, s.n);
    MeanByte(s.g, s.n);
    MeanByte(s.b, s.n);
    Color(Mean(s.r, s.n), Mean(s.g, s.n), Mean(s.b, s.n))
  }

  lemma BoxFilled(img: seq<seq<Pixel>>, w: nat, h: nat, y0: nat, y1: nat, x0: nat, x1: nat)
    requires Image(img, w, h) && y0 < y1 <= h && x0 < x1 <= w
    ensures Bytes(BoxSum(img, w, h, y0, y1, x0, x1)) && BoxSum(img, w, h, y0, y1, x0, x1).n > 0
  {
    BoxBytes(img, w, h, y0, y1, x0, x1);
    Scaled(1, y1 - y0, x1 - x0);
  }

  lemma StepSmall(w: nat, h: nat)
    requires 0 < w <= SIDE_MAX && 0 < h <= SIDE_MAX
    ensures 1 <= StepFor(w, h) <= 16
  {}

  /** Boxes are at most 16 pixels wide and high, so at every moment of the accumulation the counters hold less than
      2^16, far from the range of their 32 bits, the rounding included. */
  lemma SumsFit(img: seq<seq<Pixel>>, w: nat, h: nat, step: nat, y: nat, ys: nat, x: nat, x0: nat, x1: nat)
    requires Image(img, w, h) && 0 < w <= SIDE_MAX && 0 < h <= SIDE_MAX && step == StepFor(w, h)
    requires y < Boxes(h, step) && y * step <= ys <= BoxEnd(y, step, h)
    requires x < Boxes(w, step) && x0 == x * step && x1 == BoxEnd(x, step, w)
    ensures x0 <= x1 <= w && ys <= h
    ensures var s := BoxSum(img, w, h, y * step, ys, x0, x1);
      s.n <= 256 && s.r + s.n / 2 < 0x1_0000 && s.g + s.n / 2 < 0x1_0000 && s.b + s.n / 2 < 0x1_0000
  {
    hide Image, BoxSum, StepFor, Boxes;
    StepSmall(w, h);
    BoxesTile(w, step, x, 0);
    BoxesTile(h, step, y, 0);
    var dy, dx := ys - y * step, x1 - x0;
    assert (y + 1) * step == y * step + step && (x + 1) * step == x * step + step;
    BoxBytes(img, w, h, y * step, ys, x0, x1);
    Scaled(dy, 16, dx);
    Scaled(dx, 16, 16);
  }

  /** The accumulation over one box. */
  method SumBox(img: seq<seq<Pixel>>, w: nat, h: nat, step: nat, y: nat, x: nat) returns (s: Sum)
    requires Image(img, w, h) && step >= 1 && y * step < h && x * step < w
    ensures s == BoxSum(img, w, h, y * step, BoxEnd(y, step, h), x * step, BoxEnd(x, step, w))
  {
    hide Composite, RowSum, Image;
    s := NOTHING;
    var y0, x0 := y * step, x * step;
    assert y0 <= BoxEnd(y, step, h);
    var ys := y0;
    while ys < (y + 1) * step && ys < h
      invariant y0 <= ys <= BoxEnd(y, step, h)
      invariant s == BoxSum(img, w, h, y0, ys, x0, BoxEnd(x, step, w))
    {
      RowOk(img, w, h, ys);
      s := SumRow(img[ys], s, step, x);
      ys := ys + 1;
    }
  }

  lemma RowOk(img: seq<seq<Pixel>>, w: nat, h: nat, y: nat)
    requires Image(img, w, h) && y < h
    ensures |img| == h && |img[y]| == w && forall x | 0 <= x < w :: img[y][x].a < 256
  {}

  method SumRow(row: seq<Pixel>, before: Sum, step: nat, x: nat) returns (s: Sum)
    requires (forall i | 0 <= i < |row| :: row[i].a < 256) && x * step < |row|
    ensures s == Plus(before, RowSum(row, x * step, BoxEnd(x, step, |row|)))
  {
    hide Composite;
    s := before;
    var x0 := x * step;
    var xs := x0;
    assert x0 <= BoxEnd(x, step, |row|);
    while xs < (x + 1) * step && xs < |row|
      invariant x0 <= xs <= BoxEnd(x, step, |row|)
      invariant s == Plus(before, RowSum(row, x0, xs))
    {
      s := Plus(s, Composite(row[xs]));
      xs := xs + 1;
    }
  }

  /** The downscale of icon_compute_blurhash: every box's color is the rounded mean of its pixels over the backdrop. */
  method Downscale(img: seq<seq<Pixel>>, w: nat, h: nat) returns (small: array2<Color>)
    requires Image(img, w, h) && 0 < w <= SIDE_MAX && 0 < h <= SIDE_MAX
    ensures small.Length0 == Boxes(h, StepFor(w, h)) && small.Length1 == Boxes(w, StepFor(w, h))
    ensures 1 <= small.Length0 <= SMALL_MAX && 1 <= small.Length1 <= SMALL_MAX
    ensures forall y, x | 0 <= y < small.Length0 && 0 <= x < small.Length1 ::
      small[y, x] == BoxColor(img, w, h, StepFor(w, h), y, x) && Below(small[y, x], 256)
  {
    hide Image, StepFor, Boxes, BoxSum, Mean;
    var step := StepFor(w, h);
    BoxesFew(w, h);
    var sw, sh := Boxes(w, step), Boxes(h, step);
    small := new Color[sh, sw]((_, _) => Color(0, 0, 0));
    var y := 0;
    while y < sh
      invariant y <= sh
      invariant forall j, i | 0 <= j < y && 0 <= i < sw :: small[j, i] == BoxColor(img, w, h, step, j, i)
    {
      var x := 0;
      while x < sw
        invariant x <= sw
        invariant forall j, i | 0 <= j < y && 0 <= i < sw :: small[j, i] == BoxColor(img, w, h, step, j, i)
        invariant forall i | 0 <= i < x :: small[y, i] == BoxColor(img, w, h, step, y, i)
      {
        BoxesTile(h, step, y, 0);
        BoxesTile(w, step, x, 0);
        var s := SumBox(img, w, h, step, y, x);
        BoxFilled(img, w, h, y * step, BoxEnd(y, step, h), x * step, BoxEnd(x, step, w));
        small[y, x] := Color(Mean(s.r, s.n), Mean(s.g, s.n), Mean(s.b, s.n));
        assert small[y, x] == BoxColor(img, w, h, step, y, x);
        x := x + 1;
      }
      y := y + 1;
    }
  }
}
