/** The three ways the client writes an `Options` map into a query string,
    each as the accumulator loop in the source leaves it, and the plain
    `k1=v1&k2=v2` form they are meant to produce, with lemmas saying when
    the trimmed accumulators equal it. */
module Query {

  import Text
  import opened Http

  /** `fmt.Sprintf("%s=%v", k, v)`. */
  function PairText(p: (string, OptionValue)): string
  {
    p.0 + "=" + Format(p.1)
  }

  /** The pairs joined by `&`, with no `&` in front or behind. */
  function JoinAmp(opts: Options): string
  {
    if |opts| == 0 then ""
    else if |opts| == 1 then PairText(opts[0])
    else JoinAmp(opts[..|opts| - 1]) + "&" + PairText(opts[|opts| - 1])
  }

  /** `url + fmt.Sprintf("%s=%v&", k, v)` for every pair (`Destination.String`). */
  function AmpAfter(opts: Options): string
  {
    if opts == [] then "" else AmpAfter(opts[..|opts| - 1]) + PairText(opts[|opts| - 1]) + "&"
  }

  /** `query + fmt.Sprintf("&%s=%v", k, v)` for every pair (`GetAllChanges`, `GetDBEvent`). */
  function AmpBefore(opts: Options): string
  {
    if opts == [] then "" else AmpBefore(opts[..|opts| - 1]) + "&" + PairText(opts[|opts| - 1])
  }

  /** `query + fmt.Sprintf("%s=%v", k, v)` for every pair, with no separator. */
  function NoSeparator(opts: Options): string
  {
    if opts == [] then "" else NoSeparator(opts[..|opts| - 1]) + PairText(opts[|opts| - 1])
  }

  /** Options whose text cannot be eaten by the trimming the client does:
      there is at least one pair, the first key does not start with `&`
      and the last value does not end with `&` or `/`. */
  predicate Tidy(opts: Options)
  {
    && opts != []
    && FirstOr(opts[0].0, '=') != '&'
    && LastOr(Format(opts[|opts| - 1].1), '=') !in {'&', '/'}
  }

  /** The first character of `s`, or `d` when `s` is empty. */
  function FirstOr(s: string, d: char): char
  {
    if s == [] then d else s[0]
  }

  /** The last character of `s`, or `d` when `s` is empty. */
  function LastOr(s: string, d: char): char
  {
    if s == [] then d else s[|s| - 1]
  }

  /** The ends of `JoinAmp`: it starts with the first key (or `=`) and ends
      with the last value (or `=`). */
  lemma {:induction false} JoinAmpEnds(opts: Options)
    requires opts != []
    ensures JoinAmp(opts) != []
    ensures FirstOr(JoinAmp(opts), ' ') == FirstOr(opts[0].0, '=')
    ensures LastOr(JoinAmp(opts), ' ') == LastOr(Format(opts[|opts| - 1].1), '=')
  {
    if |opts| > 1 {
      var init := opts[..|opts| - 1];
      JoinAmpEnds(init);
      assert init[0] == opts[0];
    }
  }

  lemma {:induction false} AmpAfterIsJoin(opts: Options)
    requires opts != []
    ensures AmpAfter(opts) == JoinAmp(opts) + "&"
  {
    if |opts| > 1 {
      AmpAfterIsJoin(opts[..|opts| - 1]);
    } else {
      assert opts[..0] == [];
    }
  }

  lemma {:induction false} AmpBeforeIsJoin(opts: Options)
    requires opts != []
    ensures AmpBefore(opts) == "&" + JoinAmp(opts)
  {
    if |opts| > 1 {
      AmpBeforeIsJoin(opts[..|opts| - 1]);
    } else {
      assert opts[..0] == [];
    }
  }

  /** Trimming `&` from the `Destination.String` accumulator leaves the
      plain joined pairs. */
  lemma TrimAmpAfter(opts: Options)
    requires Tidy(opts)
    ensures Text.Trim(AmpAfter(opts), '&') == JoinAmp(opts)
  {
    AmpAfterIsJoin(opts);
    JoinAmpEnds(opts);
    Text.TrimOneTrailing(JoinAmp(opts), '&');
  }

  /** Trimming `&` from the `GetAllChanges` accumulator leaves the plain
      joined pairs. */
  lemma TrimAmpBefore(opts: Options)
    requires Tidy(opts)
    ensures Text.Trim(AmpBefore(opts), '&') == JoinAmp(opts)
  {
    AmpBeforeIsJoin(opts);
    JoinAmpEnds(opts);
    Text.TrimOneLeading(JoinAmp(opts), '&');
  }

  /** The ends of `NoSeparator`: it starts with the first key (or `=`)
      and ends with the last value (or `=`). */
  lemma {:induction false} NoSeparatorEnds(opts: Options)
    requires opts != []
    ensures NoSeparator(opts) != []
    ensures FirstOr(NoSeparator(opts), ' ') == FirstOr(opts[0].0, '=')
    ensures LastOr(NoSeparator(opts), ' ') == LastOr(Format(opts[|opts| - 1].1), '=')
  {
    var init := opts[..|opts| - 1];
    var last := PairText(opts[|opts| - 1]);
    assert NoSeparator(opts) == NoSeparator(init) + last;
    PairTextEnds(opts[|opts| - 1]);
    if init == [] {
      assert NoSeparator(opts) == last;
    } else {
      NoSeparatorEnds(init);
      assert init[0] == opts[0];
      var a := NoSeparator(init);
      assert (a + last)[0] == a[0];
      assert (a + last)[|a + last| - 1] == last[|last| - 1];
    }
  }

  /** One pair's text starts with its key (or `=`) and ends with its value
      (or `=`). */
  lemma PairTextEnds(p: (string, OptionValue))
    ensures PairText(p) != []
    ensures FirstOr(PairText(p), ' ') == FirstOr(p.0, '=')
    ensures LastOr(PairText(p), ' ') == LastOr(Format(p.1), '=')
  {
    var k := p.0;
    var v := Format(p.1);
    var t := k + "=" + v;
    assert PairText(p) == t;
    if k != [] {
      assert t[0] == k[0];
    }
    if v != [] {
      assert t[|t| - 1] == v[|v| - 1];
    }
  }

  /** Trimming `&` leaves the run-together pairs of tidy options alone. */
  lemma TrimNoSeparator(opts: Options)
    ensures Tidy(opts) ==> Text.Trim(NoSeparator(opts), '&') == NoSeparator(opts)
  {
    if Tidy(opts) {
      NoSeparatorEnds(opts);
      Text.TrimUntouched(NoSeparator(opts), '&');
    }
  }

  /** The joined pairs of tidy options end neither in `&` nor in `/`. */
  lemma JoinAmpLast(opts: Options)
    requires Tidy(opts)
    ensures var j := JoinAmp(opts); j != [] && j[|j| - 1] != '/' && j[|j| - 1] != '&'
  {
    JoinAmpEnds(opts);
  }
}
