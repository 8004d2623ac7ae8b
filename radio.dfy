/**
 * The value types of the radio package (radio.go) and its frequency
 * formatter, MegaHertz.
 */
module Radio {
  import opened Wrappers
  import opened Ints
  import opened Format

  /** Amounts of data sent and received. */
  datatype Counters = Counters(sent: int, received: int)

  /** Byte and packet counters of a radio device. */
  datatype Statistics = Statistics(bytes: Counters, packets: Counters)

  /**
   * "%3d.%03d" of the whole megahertz and of the kilohertz left over, by
   * unsigned division; the remainder below one kilohertz is dropped.
   */
  function MegaHertz(freq: uint32): (r: string)
    ensures |r| == (if freq < 1_000_000_000 then 7 else 8) && r[|r| - 4] == '.'
  {
    var m := freq / 1_000_000;
    var k := (freq % 1_000_000) / 1_000;
    var whole, frac := PadLeft(Digits(m, 10), 3, ' '), PadLeft(Digits(k, 10), 3, '0');
    PaddedWidths(freq);
    whole + "." + frac
  }

  /** The position of the first `c` in `s`, or |s| when there is none. */
  function IndexOf(s: string, c: char): (i: nat)
    ensures i <= |s| && (i < |s| ==> s[i] == c)
    ensures forall j | 0 <= j < i :: s[j] != c
  {
    if s == [] || s[0] == c then 0 else 1 + IndexOf(s[1..], c)
  }

  /**
   * Reads a MegaHertz string back: leading spaces, decimal digits, a '.',
   * decimal digits. Gives the whole megahertz and the kilohertz.
   */
  function ParseMegaHertz(s: string): Option<(nat, nat)> {
    var dot := IndexOf(s, '.');
    if dot == |s| then None
    else
      var whole, frac := TrimSpaces(s[..dot]), s[dot + 1..];
      if whole != [] && frac != [] && AllDigits(whole, 10) && AllDigits(frac, 10)
      then Some((Parse(whole, 10), Parse(frac, 10)))
      else None
  }

  /**
   * The two numbers MegaHertz prints: at most 4294 whole megahertz and at
   * most 999 kilohertz, which together fall short of the frequency by less
   * than one kilohertz.
   */
  lemma Truncation(freq: uint32)
    ensures var m, k := freq / 1_000_000, (freq % 1_000_000) / 1_000;
      && 0 <= k <= 999 && m <= 4294
      && m * 1_000_000 + k * 1_000 <= freq < m * 1_000_000 + k * 1_000 + 1_000
  {
    var m, r := freq / 1_000_000, freq % 1_000_000;
    var k, t := r / 1_000, r % 1_000;
    assert freq == m * 1_000_000 + r && 0 <= r < 1_000_000;
    assert r == k * 1_000 + t && 0 <= t < 1_000;
  }

  /** %3d pads the whole megahertz to three characters below 1 GHz and prints four digits from 1 GHz on. */
  lemma WholePartWidth(freq: uint32)
    ensures var w := Digits(freq / 1_000_000, 10);
      && AllDigits(w, 10)
      && (freq < 1_000_000_000 ==> |w| <= 3)
      && (freq >= 1_000_000_000 ==> |w| == 4)
  {
    var m := freq / 1_000_000;
    ParseDigits(m, 10);
    assert Pow(10, 3) == 1_000 && Pow(10, 4) == 10_000;
    DigitsLength(m, 10, 3);
    if freq >= 1_000_000_000 {
      DigitsLength(m, 10, 4);
    }
  }

  /** The kilohertz are always exactly three zero-padded decimal digits. */
  lemma FractionDigits(freq: uint32)
    ensures var f := PadLeft(Digits((freq % 1_000_000) / 1_000, 10), 3, '0');
      && |f| == 3 && AllDigits(f, 10) && Parse(f, 10) == (freq % 1_000_000) / 1_000
  {
    assert Pow(10, 3) == 1_000;
    ZeroPaddedRoundTrip((freq % 1_000_000) / 1_000, 10, 3);
  }

  /** The two padded numbers take 3 (or, from 1 GHz on, 4) and 3 characters. */
  lemma PaddedWidths(freq: uint32)
    ensures |PadLeft(Digits(freq / 1_000_000, 10), 3, ' ')| == if freq < 1_000_000_000 then 3 else 4
    ensures |PadLeft(Digits((freq % 1_000_000) / 1_000, 10), 3, '0')| == 3
  {
    WholePartWidth(freq);
    FractionDigits(freq);
  }

  /** MegaHertz(freq) is the padded whole part, a '.', and the padded fraction. */
  lemma MegaHertzParts(freq: uint32) returns (w: string, f: string)
    ensures w == Digits(freq / 1_000_000, 10) && f == PadLeft(Digits((freq % 1_000_000) / 1_000, 10), 3, '0')
    ensures MegaHertz(freq) == PadLeft(w, 3, ' ') + "." + f
    ensures AllDigits(w, 10) && 1 <= |w| <= 4
    ensures freq < 1_000_000_000 <==> |w| <= 3
    ensures |f| == 3 && AllDigits(f, 10) && Parse(f, 10) == (freq % 1_000_000) / 1_000
  {
    w := Digits(freq / 1_000_000, 10);
    f := PadLeft(Digits((freq % 1_000_000) / 1_000, 10), 3, '0');
    WholePartWidth(freq);
    FractionDigits(freq);
  }

  /** The layout of a whole part printed with %3d, a '.', and three digits. */
  lemma JoinedLayout(w: string, f: string)
    requires AllDigits(w, 10) && 1 <= |w| <= 4
    requires |f| == 3 && AllDigits(f, 10)
    ensures var s := PadLeft(w, 3, ' ') + "." + f;
      && (|w| <= 3 ==> |s| == 7 && s[3] == '.')
      && (|w| == 4 ==> |s| == 8 && s[4] == '.' && AllDigits(s[..4], 10))
      && (forall i | 0 <= i < |s| - 4 :: s[i] == ' ' || IsDigit(s[i], 10))
      && AllDigits(s[|s| - 3..], 10)
  {
    var p := PadLeft(w, 3, ' ');
    var s := p + "." + f;
    assert |p| == |s| - 4 && s[|p|] == '.';
    assert s[|s| - 3..] == f;
    if |w| == 4 {
      assert s[..4] == w;
    }
    forall i | 0 <= i < |p|
      ensures s[i] == ' ' || IsDigit(s[i], 10)
    {
      assert s[i] == p[i];
      if i >= |p| - |w| {
        assert p[i] == w[i - (|p| - |w|)];
      }
    }
  }

  /** The first `c` of `p + rest` is the first character of `rest` when `p` holds none. */
  lemma {:induction false} IndexOfAfter(p: string, rest: string, c: char)
    requires forall i | 0 <= i < |p| :: p[i] != c
    requires rest != [] && rest[0] == c
    ensures IndexOf(p + rest, c) == |p|
  {
    if p != [] {
      assert (p + rest)[1..] == p[1..] + rest;
      IndexOfAfter(p[1..], rest, c);
    }
  }

  /** Reading back a whole part printed with %3d, a '.', and digits. */
  lemma JoinedParse(w: string, f: string)
    requires AllDigits(w, 10) && w != []
    requires AllDigits(f, 10) && f != []
    ensures ParseMegaHertz(PadLeft(w, 3, ' ') + "." + f) == Some((Parse(w, 10), Parse(f, 10)))
  {
    var p := PadLeft(w, 3, ' ');
    forall i | 0 <= i < |p|
      ensures p[i] != '.'
    {
      if i >= |p| - |w| {
        assert p[i] == w[i - (|p| - |w|)];
      }
    }
    IndexOfAfter(p, "." + f, '.');
    var s := p + "." + f;
    assert s == p + ("." + f);
    assert s[..|p|] == p && s[|p| + 1..] == f;
    TrimSpacePadding(w, 3);
  }

  /**
   * The shape of MegaHertz(freq): below 1 GHz seven characters, three of
   * them spaces or digits, a '.', three digits; from 1 GHz on eight, with
   * four digits before the '.'.
   */
  lemma MegaHertzLayout(freq: uint32)
    ensures var s := MegaHertz(freq);
      && (freq < 1_000_000_000 ==> |s| == 7 && s[3] == '.')
      && (freq >= 1_000_000_000 ==> |s| == 8 && s[4] == '.' && AllDigits(s[..4], 10))
      && (forall i | 0 <= i < |s| - 4 :: s[i] == ' ' || IsDigit(s[i], 10))
      && AllDigits(s[|s| - 3..], 10)
  {
    var w, f := MegaHertzParts(freq);
    JoinedLayout(w, f);
  }

  /**
   * Stripping the leading spaces and splitting at the '.' gives back the
   * whole megahertz and the kilohertz, which lie within one kilohertz below
   * the frequency.
   */
  lemma MegaHertzRoundTrip(freq: uint32)
    ensures ParseMegaHertz(MegaHertz(freq)) == Some((freq / 1_000_000, (freq % 1_000_000) / 1_000))
    ensures var (mhz, khz) := ParseMegaHertz(MegaHertz(freq)).value;
      mhz * 1_000_000 + khz * 1_000 <= freq < mhz * 1_000_000 + khz * 1_000 + 1_000
  {
    MegaHertzParses(freq);
    Truncation(freq);
  }

  lemma MegaHertzParses(freq: uint32)
    ensures ParseMegaHertz(MegaHertz(freq)) == Some((freq / 1_000_000, (freq % 1_000_000) / 1_000))
  {
    var w, f := PrintedNumbers(freq);
    JoinedParse(w, f);
  }

  /** The two digit strings MegaHertz pads, with the numbers they spell. */
  lemma PrintedNumbers(freq: uint32) returns (w: string, f: string)
    ensures MegaHertz(freq) == PadLeft(w, 3, ' ') + "." + f
    ensures w != [] && AllDigits(w, 10) && Parse(w, 10) == freq / 1_000_000
    ensures f != [] && AllDigits(f, 10) && Parse(f, 10) == (freq % 1_000_000) / 1_000
  {
    w, f := MegaHertzParts(freq);
    ParseDigits(freq / 1_000_000, 10);
  }

  /** %3d leaves a number of three or more digits as it is. */
  lemma WideWhole(w: string)
    requires |w| >= 3
    ensures PadLeft(w, 3, ' ') == w
  {
  }

  /** The decimal spellings the examples below need, each proved on its own. */
  lemma DecimalsOfExamples()
    ensures Digits(915, 10) == "915" && Digits(433, 10) == "433"
    ensures Digits(920, 10) == "920" && Digits(1000, 10) == "1000"
    ensures PadLeft(Digits(0, 10), 3, '0') == "000" && PadLeft(Digits(0, 10), 3, ' ') == "  0"
  {
    assert Digits(91, 10) == "91";
    assert Digits(43, 10) == "43";
    assert Digits(92, 10) == "92";
    assert Digits(100, 10) == "100";
  }

  /** 915 MHz prints as "915.000". */
  lemma MegaHertzOf915()
    ensures MegaHertz(915_000_000) == "915.000"
  {
    assert 915_000_000 / 1_000_000 == 915 && (915_000_000 % 1_000_000) / 1_000 == 0;
    DecimalsOfExamples();
    WideWhole("915");
  }

  /** 433.92 MHz prints as "433.920". */
  lemma MegaHertzOf433()
    ensures MegaHertz(433_920_000) == "433.920"
  {
    assert 433_920_000 / 1_000_000 == 433 && (433_920_000 % 1_000_000) / 1_000 == 920;
    DecimalsOfExamples();
    WideWhole("433");
    assert PadLeft("920", 3, '0') == "920";
  }

  /** Zero prints with two spaces in front: "  0.000". */
  lemma MegaHertzOfZero()
    ensures MegaHertz(0) == "  0.000"
  {
    DecimalsOfExamples();
  }

  /** From 1 GHz on the whole part takes four characters: "1000.000". */
  lemma MegaHertzOf1000()
    ensures MegaHertz(1_000_000_000) == "1000.000"
  {
    assert 1_000_000_000 / 1_000_000 == 1000 && (1_000_000_000 % 1_000_000) / 1_000 == 0;
    DecimalsOfExamples();
    WideWhole("1000");
  }
}
