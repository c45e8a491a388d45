/** String helpers the client relies on from Go's standard library:
    `strings.TrimRight`, `strings.TrimLeft` and `strings.Trim` with a
    one-character cut set, `strings.Contains`, and the decimal rendering
    that `fmt` gives an integer (`%d`, `%v`). */
module Text {

  import opened Wrappers

  /** `strings.TrimRight(s, [c])`: drops every trailing `c`. */
  function TrimRight(s: string, c: char): (r: string)
    ensures r <= s
    ensures r == [] || r[|r| - 1] != c
    ensures AllAre(s, c, |r|, |s|)
  {
    if |s| > 0 && s[|s| - 1] == c then TrimRight(s[..|s| - 1], c) else s
  }

  /** `strings.TrimLeft(s, [c])`: drops every leading `c`. */
  function TrimLeft(s: string, c: char): (r: string)
    ensures |r| <= |s| && r == s[|s| - |r|..]
    ensures r == [] || r[0] != c
    ensures AllAre(s, c, 0, |s| - |r|)
  {
    if |s| > 0 && s[0] == c then TrimLeft(s[1..], c) else s
  }

  /** Every character of `s` from `lo` up to `hi` is `c`. */
  predicate AllAre(s: string, c: char, lo: int, hi: int)
  {
    forall i :: 0 <= lo <= i < hi <= |s| ==> s[i] == c
  }

  /** `strings.Trim(s, [c])`: `TrimRight(TrimLeft(s))`, as the Go library does it. */
  function Trim(s: string, c: char): string
  {
    TrimRight(TrimLeft(s, c), c)
  }

  /** What `Trim` keeps is `s` cut between a leading and a trailing run
      of `c`, and neither starts nor ends with `c`. */
  lemma TrimCuts(s: string, c: char)
    ensures CutBetween(s, c, |s| - |TrimLeft(s, c)|, Trim(s, c))
  {
    var t := TrimLeft(s, c);
    var r := TrimRight(t, c);
    assert Trim(s, c) == r;
    TrimBothEnds(s, c, t, r);
  }

  /** `r` is what is left of `s` once a leading run of `k` copies of `c`
      and a trailing run of `c` are cut, and it neither starts nor ends
      with `c`. */
  predicate CutBetween(s: string, c: char, k: int, r: string)
  {
    && 0 <= k && k + |r| <= |s| && r == s[k..k + |r|]
    && AllAre(s, c, 0, k)
    && AllAre(s, c, k + |r|, |s|)
    && (r == [] || (r[0] != c && r[|r| - 1] != c))
  }

  /** Cutting a trailing run of `c` from what is left once a leading run
      is cut cuts `s` between its two runs. */
  lemma TrimBothEnds(s: string, c: char, t: string, r: string)
    requires |t| <= |s| && t == s[|s| - |t|..] && (t == [] || t[0] != c)
    requires AllAre(s, c, 0, |s| - |t|)
    requires r <= t && (r == [] || r[|r| - 1] != c)
    requires AllAre(t, c, |r|, |t|)
    ensures CutBetween(s, c, |s| - |t|, r)
  {
    var k := |s| - |t|;
    assert r == t[..|r|];
    assert r == s[k..k + |r|];
    forall i | k + |r| <= i < |s|
      ensures s[i] == c
    {
      assert s[i] == t[i - k];
    }
    assert AllAre(s, c, k + |r|, |s|);
  }

  /** Trimming leaves a string alone when it neither starts nor ends with `c`. */
  lemma TrimUntouched(s: string, c: char)
    requires s != [] && s[0] != c && s[|s| - 1] != c
    ensures Trim(s, c) == s
  {
  }

  /** Trimming `s + [c]` removes exactly the one `c` appended. */
  lemma TrimOneTrailing(s: string, c: char)
    requires s != [] && s[0] != c && s[|s| - 1] != c
    ensures Trim(s + [c], c) == s
  {
    assert (s + [c])[0] == s[0];
    assert TrimLeft(s + [c], c) == s + [c];
    assert (s + [c])[..|s + [c]| - 1] == s;
  }

  /** Trimming `[c] + s` removes exactly the one `c` prepended. */
  lemma TrimOneLeading(s: string, c: char)
    requires s != [] && s[0] != c && s[|s| - 1] != c
    ensures Trim([c] + s, c) == s
  {
    assert ([c] + s)[1..] == s;
  }

  /** `sub` occurs in `s` starting at position `i`. */
  predicate OccursAt(s: string, sub: string, i: int)
  {
    0 <= i && i + |sub| <= |s| && s[i..i + |sub|] == sub
  }

  /** `strings.Contains(s, sub)`, computed by scanning from the left. */
  function Contains(s: string, sub: string): (r: bool)
    ensures r <==> exists i :: OccursAt(s, sub, i)
  {
    if |sub| > |s| then false
    else if s[..|sub|] == sub then assert OccursAt(s, sub, 0); true
    else
      var r := Contains(s[1..], sub);
      assert r ==> exists i :: OccursAt(s, sub, i) by {
        if r {
          var j :| OccursAt(s[1..], sub, j);
          assert s[j + 1..j + 1 + |sub|] == s[1..][j..j + |sub|];
          assert OccursAt(s, sub, j + 1);
        }
      }
      assert (exists i :: OccursAt(s, sub, i)) ==> r by {
        if exists i :: OccursAt(s, sub, i) {
          var i :| OccursAt(s, sub, i);
          assert i != 0;
          assert s[1..][i - 1..i - 1 + |sub|] == s[i..i + |sub|];
          assert OccursAt(s[1..], sub, i - 1);
        }
      }
      r
  }

  predicate IsDigit(c: char)
  {
    '0' <= c <= '9'
  }

  function DigitChar(d: int): (c: char)
    requires 0 <= d < 10
    ensures IsDigit(c)
  {
    ('0' as int + d) as char
  }

  function DigitValue(c: char): (d: int)
    requires IsDigit(c)
    ensures 0 <= d < 10 && DigitChar(d) == c
  {
    c as int - '0' as int
  }

  /** Decimal rendering of a natural number, most significant digit first. */
  function NatToDecimal(n: nat): (s: string)
    ensures s != []
    ensures forall i :: 0 <= i < |s| ==> IsDigit(s[i])
    ensures |s| > 1 ==> s[0] != '0'
  {
    if n < 10 then [DigitChar(n)] else NatToDecimal(n / 10) + [DigitChar(n % 10)]
  }

  /** Decimal rendering of an integer, as `%d` and `%v` print it. */
  function IntToDecimal(i: int): (s: string)
    ensures s != []
  {
    if i < 0 then "-" + NatToDecimal(-i) else NatToDecimal(i)
  }

  /** The value a string of decimal digits denotes. */
  function DecimalValue(s: string): nat
    requires forall i :: 0 <= i < |s| ==> IsDigit(s[i])
  {
    if s == [] then 0 else 10 * DecimalValue(s[..|s| - 1]) + DigitValue(s[|s| - 1])
  }

  /** Reads a natural number back from its decimal rendering; `None` for
      anything that is not a non-empty string of digits. */
  function ParseNat(s: string): (r: Option<nat>)
    ensures r.Some? <==> s != [] && forall i :: 0 <= i < |s| ==> IsDigit(s[i])
  {
    if s != [] && forall i :: 0 <= i < |s| ==> IsDigit(s[i]) then Some(DecimalValue(s)) else None
  }

  /** The decimal rendering reads back as the number it renders. */
  lemma {:induction false} DecimalRoundTrip(n: nat)
    ensures DecimalValue(NatToDecimal(n)) == n
    ensures ParseNat(NatToDecimal(n)) == Some(n)
  {
    if n >= 10 {
      DecimalRoundTrip(n / 10);
      var s := NatToDecimal(n);
      assert s[..|s| - 1] == NatToDecimal(n / 10);
    }
  }

  /** Two numbers with the same rendering are equal. */
  lemma DecimalInjective(m: nat, n: nat)
    requires NatToDecimal(m) == NatToDecimal(n)
    ensures m == n
  {
    DecimalRoundTrip(m);
    DecimalRoundTrip(n);
  }
}
