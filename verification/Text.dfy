/** Characters and strings as the Python code sees them. */
module Text {

  /** `str.isspace` for one code point: the whole Unicode class. */
  predicate IsSpaceCode(n: int) {
    || 0x09 <= n <= 0x0d || 0x1c <= n <= 0x20 || n == 0x85 || n == 0xa0 || n == 0x1680
    || 0x2000 <= n <= 0x200a || n == 0x2028 || n == 0x2029 || n == 0x202f || n == 0x205f || n == 0x3000
  }

  predicate IsSpace(c: char) {
    IsSpaceCode(c as int)
  }

  /** The 29 code points of white space. */
  lemma SpaceCodes(n: int)
    ensures IsSpaceCode(n) <==>
            n in {9, 10, 11, 12, 13, 28, 29, 30, 31, 32, 133, 160, 5760, 8192, 8193, 8194, 8195, 8196, 8197, 8198, 8199,
                  8200, 8201, 8202, 8232, 8233, 8239, 8287, 12288}
  {
  }

  function LStrip(s: string): (r: string)
    ensures r == "" || !IsSpace(r[0])
    ensures |r| <= |s| && r == s[|s| - |r|..]
  {
    if s != "" && IsSpace(s[0]) then LStrip(s[1..]) else s
  }

  function RStrip(s: string): (r: string)
    ensures r == "" || !IsSpace(r[|r| - 1])
    ensures |r| <= |s| && r == s[..|r|]
  {
    if s != "" && IsSpace(s[|s| - 1]) then RStrip(s[..|s| - 1]) else s
  }

  /** `str.strip()` */
  function Strip(s: string): string {
    RStrip(LStrip(s))
  }

  lemma StripTrimmed(s: string)
    requires s == "" || (!IsSpace(s[0]) && !IsSpace(s[|s| - 1]))
    ensures Strip(s) == s
  {
  }

  lemma StripIsTrimmed(s: string)
    ensures Strip(s) == "" || (!IsSpace(Strip(s)[0]) && !IsSpace(Strip(s)[|Strip(s)| - 1]))
  {
  }

  /** Stripping takes away white space on both sides and nothing else. */
  lemma StripIsSlice(s: string) returns (lo: nat)
    ensures lo + |Strip(s)| <= |s| && Strip(s) == s[lo..lo + |Strip(s)|]
    ensures forall i :: 0 <= i < |s| && (i < lo || lo + |Strip(s)| <= i) ==> IsSpace(s[i])
  {
    hide IsSpace;
    lo := |s| - |LStrip(s)|;
    LStripped(s);
    RStripped(LStrip(s));
    var l := LStrip(s);
    forall i | 0 <= i < |s| && (i < lo || lo + |Strip(s)| <= i) ensures IsSpace(s[i]) {
      assert i >= lo ==> s[i] == l[i - lo];
    }
  }

  lemma {:induction false} LStripped(s: string)
    ensures forall i :: 0 <= i < |s| - |LStrip(s)| ==> IsSpace(s[i])
  {
    if s != "" && IsSpace(s[0]) {
      LStripped(s[1..]);
      assert forall i :: 0 < i < |s| ==> s[i] == s[1..][i - 1];
    }
  }

  lemma {:induction false} RStripped(s: string)
    ensures forall i :: |RStrip(s)| <= i < |s| ==> IsSpace(s[i])
  {
    if s != "" && IsSpace(s[|s| - 1]) {
      RStripped(s[..|s| - 1]);
      assert forall i :: 0 <= i < |s| - 1 ==> s[i] == s[..|s| - 1][i];
    }
  }

  // ---- decimal numerals ----

  function DigitChar(d: nat): (c: char)
    requires d < 10
    ensures c as int == '0' as int + d
  {
    ('0' as int + d) as char
  }

  predicate IsAsciiDigit(c: char) { '0' <= c <= '9' }

  /** `str(n)` */
  function Decimal(n: nat): (s: string)
    ensures |s| >= 1
    ensures forall i :: 0 <= i < |s| ==> IsAsciiDigit(s[i])
  {
    if n < 10 then [DigitChar(n)] else Decimal(n / 10) + [DigitChar(n % 10)]
  }

  /** Reads a numeral back; the inverse of `Decimal` and of zero padding. */
  function NumeralValue(s: string): nat
    requires forall i :: 0 <= i < |s| ==> IsAsciiDigit(s[i])
  {
    assert s != "" ==> IsAsciiDigit(s[|s| - 1]);
    if s == "" then 0 else 10 * NumeralValue(s[..|s| - 1]) + (s[|s| - 1] as int - '0' as int)
  }

  lemma {:induction false} DecimalValue(n: nat)
    ensures NumeralValue(Decimal(n)) == n
  {
    if n >= 10 {
      DecimalValue(n / 10);
      assert Decimal(n)[..|Decimal(n)| - 1] == Decimal(n / 10);
    }
  }

  lemma DecimalInjective(m: nat, n: nat)
    requires Decimal(m) == Decimal(n)
    ensures m == n
  {
    DecimalValue(m);
    DecimalValue(n);
  }

  function Zeros(k: nat): (s: string)
    ensures |s| == k && forall i :: 0 <= i < k ==> s[i] == '0'
  {
    seq(k, _ => '0')
  }

  /** `f"{n:04d}"` */
  function Pad4(n: nat): (s: string)
    ensures |s| >= 4
    ensures forall i :: 0 <= i < |s| ==> IsAsciiDigit(s[i])
  {
    var d := Decimal(n);
    if |d| < 4 then Zeros(4 - |d|) + d else d
  }

  lemma {:induction false} LeadingZeros(k: nat, s: string)
    requires forall i :: 0 <= i < |s| ==> IsAsciiDigit(s[i])
    ensures NumeralValue(Zeros(k) + s) == NumeralValue(s)
    decreases k + |s|
  {
    var t := Zeros(k) + s;
    if s == "" {
      if k > 0 {
        assert t[..|t| - 1] == Zeros(k - 1) + "";
        LeadingZeros(k - 1, "");
      }
    } else {
      assert t[..|t| - 1] == Zeros(k) + s[..|s| - 1];
      LeadingZeros(k, s[..|s| - 1]);
    }
  }

  /** Four digits, and more only when the number needs them; it reads back as the number. */
  lemma Pad4Value(n: nat)
    ensures NumeralValue(Pad4(n)) == n
    ensures |Pad4(n)| == 4 || (|Pad4(n)| > 4 && Pad4(n) == Decimal(n))
  {
    DecimalValue(n);
    if |Decimal(n)| < 4 {
      LeadingZeros(4 - |Decimal(n)|, Decimal(n));
    }
  }

  lemma Pad4Injective(m: nat, n: nat)
    requires Pad4(m) == Pad4(n)
    ensures m == n
  {
    Pad4Value(m);
    Pad4Value(n);
  }

  // ---- splitting at the last underscore, as `rsplit("_", 1)` does ----

  /** Index of the last occurrence of `c`, or -1. */
  function LastIndex(s: string, c: char): (k: int)
    ensures -1 <= k < |s|
    ensures k >= 0 ==> s[k] == c && c !in s[k + 1..]
    ensures k < 0 ==> c !in s
  {
    if s == "" then -1
    else if s[|s| - 1] == c then |s| - 1
    else
      assert s == s[..|s| - 1] + [s[|s| - 1]];
      var k := LastIndex(s[..|s| - 1], c);
      assert k >= 0 ==> s[k + 1..] == s[..|s| - 1][k + 1..] + [s[|s| - 1]];
      k
  }

  lemma InSuffix(s: string)
    ensures forall a, b :: 0 <= a <= b < |s| ==> s[b] in s[a..]
  {
    forall a, b | 0 <= a <= b < |s| ensures s[b] in s[a..] {
      assert s[a..][b - a] == s[b];
    }
  }

  lemma LastIndexUnique(s: string, c: char, k: nat)
    requires k < |s| && s[k] == c && c !in s[k + 1..]
    ensures LastIndex(s, c) == k
  {
    InSuffix(s);
  }
}
