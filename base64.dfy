/** The base64 encoding of section 4 of RFC 4648 (standard alphabet, `=`
    padding), which Go's `base64.StdEncoding.EncodeToString` produces and
    the Basic credential is written in. Each group of three bytes becomes
    four characters of six bits each; a final group of one or two bytes is
    padded with `==` or `=`. The decoder is the reference partner of the
    encoder: it reads back what the encoder writes. */
module Base64 {

  import opened Wrappers

  type byte = b: int | 0 <= b < 256

  /** Table 1 of RFC 4648: `A`-`Z`, `a`-`z`, `0`-`9`, `+`, `/`. */
  function IndexChar(i: int): (c: char)
    requires 0 <= i < 64
    ensures c != '='
  {
    if i < 26 then ('A' as int + i) as char
    else if i < 52 then ('a' as int + (i - 26)) as char
    else if i < 62 then ('0' as int + (i - 52)) as char
    else if i == 62 then '+'
    else '/'
  }

  /** The six-bit value a character of the alphabet stands for; `None` for
      any other character, the pad character `=` included. */
  function CharIndex(c: char): (r: Option<int>)
    ensures r.Some? ==> 0 <= r.value < 64 && IndexChar(r.value) == c
    ensures c == '=' ==> r.None?
  {
    if 'A' <= c <= 'Z' then Some(c as int - 'A' as int)
    else if 'a' <= c <= 'z' then Some(c as int - 'a' as int + 26)
    else if '0' <= c <= '9' then Some(c as int - '0' as int + 52)
    else if c == '+' then Some(62)
    else if c == '/' then Some(63)
    else None
  }

  lemma CharIndexInverse(i: int)
    requires 0 <= i < 64
    ensures CharIndex(IndexChar(i)) == Some(i)
  {
  }

  /** Three bytes, 24 bits, as four six-bit characters. */
  function EncodeBlock(a: byte, b: byte, c: byte): seq<char>
  {
    [IndexChar(a / 4), IndexChar((a % 4) * 16 + b / 16), IndexChar((b % 16) * 4 + c / 64), IndexChar(c % 64)]
  }

  /** A final group of two bytes: three characters and one `=`. */
  function EncodeTwo(a: byte, b: byte): seq<char>
  {
    [IndexChar(a / 4), IndexChar((a % 4) * 16 + b / 16), IndexChar((b % 16) * 4), '=']
  }

  /** A final group of one byte: two characters and `==`. */
  function EncodeOne(a: byte): seq<char>
  {
    [IndexChar(a / 4), IndexChar((a % 4) * 16), '=', '=']
  }

  /** `base64.StdEncoding.EncodeToString`. Its length is four characters
      for every started group of three bytes. */
  function Encode(s: seq<byte>): (r: string)
    ensures |r| == 4 * ((|s| + 2) / 3)
  {
    if |s| == 0 then ""
    else if |s| == 1 then EncodeOne(s[0])
    else if |s| == 2 then EncodeTwo(s[0], s[1])
    else EncodeBlock(s[0], s[1], s[2]) + Encode(s[3..])
  }

  function DecodeBlock(c0: char, c1: char, c2: char, c3: char): Option<seq<byte>>
  {
    match (CharIndex(c0), CharIndex(c1), CharIndex(c2), CharIndex(c3))
    case (Some(v0), Some(v1), Some(v2), Some(v3)) =>
      Some([v0 * 4 + v1 / 16, (v1 % 16) * 16 + v2 / 4, (v2 % 4) * 64 + v3])
    case _ => None
  }

  function DecodeTwo(c0: char, c1: char, c2: char): Option<seq<byte>>
  {
    match (CharIndex(c0), CharIndex(c1), CharIndex(c2))
    case (Some(v0), Some(v1), Some(v2)) => Some([v0 * 4 + v1 / 16, (v1 % 16) * 16 + v2 / 4])
    case _ => None
  }

  function DecodeOne(c0: char, c1: char): Option<seq<byte>>
  {
    match (CharIndex(c0), CharIndex(c1))
    case (Some(v0), Some(v1)) => Some([v0 * 4 + v1 / 16])
    case _ => None
  }

  /** Decoding by section 4 of RFC 4648: groups of four characters, with
      padding allowed only in the last group. `None` for any text that is
      not of that form. */
  function Decode(t: string): Option<seq<byte>>
    decreases |t|
  {
    if t == [] then Some([])
    else if |t| < 4 then None
    else if t[3] == '=' then
      if |t| != 4 then None
      else if t[2] == '=' then DecodeOne(t[0], t[1])
      else DecodeTwo(t[0], t[1], t[2])
    else
      match DecodeBlock(t[0], t[1], t[2], t[3])
      case None => None
      case Some(head) =>
        match Decode(t[4..])
        case None => None
        case Some(tail) => Some(head + tail)
  }

  lemma BlockRoundTrip(a: byte, b: byte, c: byte)
    ensures var q := EncodeBlock(a, b, c); DecodeBlock(q[0], q[1], q[2], q[3]) == Some([a, b, c])
  {
    CharIndexInverse(a / 4);
    CharIndexInverse((a % 4) * 16 + b / 16);
    CharIndexInverse((b % 16) * 4 + c / 64);
    CharIndexInverse(c % 64);
    assert ((a % 4) * 16 + b / 16) / 16 == a % 4;
    assert ((a % 4) * 16 + b / 16) % 16 == b / 16;
    assert ((b % 16) * 4 + c / 64) / 4 == b % 16;
    assert ((b % 16) * 4 + c / 64) % 4 == c / 64;
  }

  lemma TwoRoundTrip(a: byte, b: byte)
    ensures Decode(EncodeTwo(a, b)) == Some([a, b])
  {
    CharIndexInverse(a / 4);
    CharIndexInverse((a % 4) * 16 + b / 16);
    CharIndexInverse((b % 16) * 4);
    assert ((a % 4) * 16 + b / 16) / 16 == a % 4;
    assert ((a % 4) * 16 + b / 16) % 16 == b / 16;
    assert ((b % 16) * 4) / 4 == b % 16;
  }

  lemma OneRoundTrip(a: byte)
    ensures Decode(EncodeOne(a)) == Some([a])
  {
    CharIndexInverse(a / 4);
    CharIndexInverse((a % 4) * 16);
    assert ((a % 4) * 16) / 16 == a % 4;
  }

  /** Round trip: decoding the encoding gives back the bytes encoded. */
  lemma {:induction false} RoundTrip(s: seq<byte>)
    ensures Decode(Encode(s)) == Some(s)
  {
    if |s| == 0 {
    } else if |s| == 1 {
      OneRoundTrip(s[0]);
      assert [s[0]] == s;
    } else if |s| == 2 {
      TwoRoundTrip(s[0], s[1]);
      assert [s[0], s[1]] == s;
    } else {
      assert Encode(s) == EncodeBlock(s[0], s[1], s[2]) + Encode(s[3..]);
      BlockRoundTrip(s[0], s[1], s[2]);
      RoundTrip(s[3..]);
      DecodeFullGroup(EncodeBlock(s[0], s[1], s[2]), Encode(s[3..]), [s[0], s[1], s[2]], s[3..]);
      assert [s[0], s[1], s[2]] + s[3..] == s;
    }
  }

  /** A full group in front of text that decodes contributes its three bytes. */
  lemma DecodeFullGroup(q: string, rest: string, head: seq<byte>, tail: seq<byte>)
    requires |q| == 4 && q[3] != '='
    requires DecodeBlock(q[0], q[1], q[2], q[3]) == Some(head)
    requires Decode(rest) == Some(tail)
    ensures Decode(q + rest) == Some(head + tail)
  {
    var t := q + rest;
    assert t[0] == q[0] && t[1] == q[1] && t[2] == q[2] && t[3] == q[3];
    assert t[4..] == rest;
  }

  /** The test vectors of section 10 of RFC 4648 for the prefixes of
      "foo" (bytes 102, 111, 111). */
  lemma Rfc4648FooVectors()
    ensures Encode([]) == ""
    ensures Encode([102]) == "Zg=="
    ensures Encode([102, 111]) == "Zm8="
    ensures Encode([102, 111, 111]) == "Zm9v"
  {
    FooGroups();
    assert Encode([102, 111, 111]) == EncodeBlock(102, 111, 111) + Encode([]);
  }

  /** The remaining vectors, for "foob", "fooba" and "foobar" (bytes 98,
      97, 114 after "foo"). */
  lemma Rfc4648FoobarVectors()
    ensures Encode([102, 111, 111, 98]) == "Zm9vYg=="
    ensures Encode([102, 111, 111, 98, 97]) == "Zm9vYmE="
    ensures Encode([102, 111, 111, 98, 97, 114]) == "Zm9vYmFy"
  {
    var foo: seq<byte> := [102, 111, 111];
    EncodeAfterBlock(foo, [98]);
    EncodeAfterBlock(foo, [98, 97]);
    EncodeAfterBlock(foo, [98, 97, 114]);
    Rfc4648FooVectors();
    BarGroups();
    assert Encode([98, 97, 114]) == EncodeBlock(98, 97, 114) + Encode([]);
  }

  /** The groups of "f", "fo" and "foo". */
  lemma FooGroups()
    ensures EncodeOne(102) == "Zg=="
    ensures EncodeTwo(102, 111) == "Zm8="
    ensures EncodeBlock(102, 111, 111) == "Zm9v"
  {
    assert IndexChar(25) == 'Z' && IndexChar(32) == 'g' && IndexChar(38) == 'm';
    assert IndexChar(60) == '8' && IndexChar(61) == '9' && IndexChar(47) == 'v';
  }

  /** The groups of "b", "ba" and "bar". */
  lemma BarGroups()
    ensures EncodeOne(98) == "Yg=="
    ensures EncodeTwo(98, 97) == "YmE="
    ensures EncodeBlock(98, 97, 114) == "YmFy"
  {
    assert IndexChar(24) == 'Y' && IndexChar(32) == 'g' && IndexChar(38) == 'm';
    assert IndexChar(4) == 'E' && IndexChar(5) == 'F' && IndexChar(50) == 'y';
  }

  /** A first group of three bytes is encoded on its own, ahead of the rest. */
  lemma EncodeAfterBlock(head: seq<byte>, rest: seq<byte>)
    requires |head| == 3 && rest != []
    ensures Encode(head + rest) == Encode(head) + Encode(rest)
  {
    assert (head + rest)[3..] == rest;
    assert head[3..] == [];
  }

  /** Different byte strings have different encodings. */
  lemma EncodeInjective(s: seq<byte>, u: seq<byte>)
    requires Encode(s) == Encode(u)
    ensures s == u
  {
    RoundTrip(s);
    RoundTrip(u);
  }
}
