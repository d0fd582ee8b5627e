/**
 * The application/x-www-form-urlencoded serializer of the URL Standard (section 5.2),
 * which `URLSearchParams.toString()` applies: every name and value is encoded as
 * UTF-8, unreserved bytes are kept, space becomes '+', every other byte becomes
 * '%' and two upper-case hex digits; pairs are written `name=value` and joined by '&'.
 */
module UrlEncoding {
  import Text

  /** The UTF-8 encoding of one Unicode scalar value. */
  function Utf8(c: char): (bytes: seq<nat>)
    ensures 1 <= |bytes| <= 4
    ensures forall i :: 0 <= i < |bytes| ==> bytes[i] < 256
    ensures (c as int < 0x80) <==> |bytes| == 1
    ensures |bytes| == 1 ==> bytes[0] == c as int
    ensures |bytes| > 1 ==> forall i :: 0 <= i < |bytes| ==> bytes[i] >= 0x80
  {
    var n := c as int;
    if n < 0x80 then [n]
    else if n < 0x800 then [0xC0 + n / 64, 0x80 + n % 64]
    else if n < 0x10000 then [0xE0 + n / 4096, 0x80 + (n / 64) % 64, 0x80 + n % 64]
    else [0xF0 + n / 262144, 0x80 + (n / 4096) % 64, 0x80 + (n / 64) % 64, 0x80 + n % 64]
  }

  /** The bytes the serializer leaves as they are: `*`, `-`, `.`, `_`, digits and ASCII letters. */
  predicate Unreserved(b: nat) {
    b == 0x2A || b == 0x2D || b == 0x2E || b == 0x5F ||
    (0x30 <= b <= 0x39) || (0x41 <= b <= 0x5A) || (0x61 <= b <= 0x7A)
  }

  function HexDigit(d: nat): (c: char)
    requires d < 16
    ensures Unreserved(c as int)
  {
    "0123456789ABCDEF"[d]
  }

  function EncodeByte(b: nat): (r: string)
    requires b < 256
    ensures |r| == 1 || |r| == 3
    ensures forall i :: 0 <= i < |r| ==> Unreserved(r[i] as int) || r[i] == '+' || r[i] == '%'
  {
    if b == 0x20 then "+"
    else if Unreserved(b) then [b as char]
    else ['%', HexDigit(b / 16), HexDigit(b % 16)]
  }

  function EncodeBytes(bytes: seq<nat>): (r: string)
    requires forall i :: 0 <= i < |bytes| ==> bytes[i] < 256
    ensures forall i :: 0 <= i < |r| ==> Unreserved(r[i] as int) || r[i] == '+' || r[i] == '%'
  {
    if bytes == [] then [] else EncodeByte(bytes[0]) + EncodeBytes(bytes[1..])
  }

  /** One name or value, encoded. */
  function EncodeComponent(s: string): (r: string)
    ensures forall i :: 0 <= i < |r| ==> Unreserved(r[i] as int) || r[i] == '+' || r[i] == '%'
  {
    if s == [] then [] else EncodeBytes(Utf8(s[0])) + EncodeComponent(s[1..])
  }

  /** An encoded component never contains the two separators of the query syntax. */
  lemma ComponentHasNoSeparator(s: string)
    ensures '&' !in EncodeComponent(s) && '=' !in EncodeComponent(s)
  {
    var r := EncodeComponent(s);
    forall i | 0 <= i < |r| ensures r[i] != '&' && r[i] != '=' {
      assert Unreserved(r[i] as int) || r[i] == '+' || r[i] == '%';
    }
  }

  lemma ComponentHasNoQuestionMark(s: string)
    ensures '?' !in EncodeComponent(s)
  {
    var r := EncodeComponent(s);
    forall i | 0 <= i < |r| ensures r[i] != '?' {
      assert Unreserved(r[i] as int) || r[i] == '+' || r[i] == '%';
    }
  }

  function EncodePair(p: (string, string)): string {
    EncodeComponent(p.0) + "=" + EncodeComponent(p.1)
  }

  /** `URLSearchParams.toString()`. */
  function Serialize(params: seq<(string, string)>): (r: string)
    ensures r == [] <==> params == []
    ensures '?' !in r
  {
    if params == [] then []
    else
      ComponentHasNoQuestionMark(params[0].0);
      ComponentHasNoQuestionMark(params[0].1);
      if |params| == 1 then EncodePair(params[0])
      else EncodePair(params[0]) + "&" + Serialize(params[1..])
  }

  /**
   * The serialized query splits back into its encoded pairs: one piece per
   * parameter, in order, each piece the encoded name and value around one '='.
   */
  lemma {:induction false} SerializeSplits(params: seq<(string, string)>)
    requires params != []
    ensures var pieces := Text.SplitOn(Serialize(params), '&');
            |pieces| == |params| &&
            forall i :: 0 <= i < |params| ==>
              pieces[i] == EncodePair(params[i]) &&
              Text.SplitOn(pieces[i], '=') == [EncodeComponent(params[i].0), EncodeComponent(params[i].1)]
  {
    var head := EncodePair(params[0]);
    PairSplits(params[0]);
    if |params| == 1 {
      NoSeparatorSplitsWhole(head, '&');
    } else {
      var rest := params[1..];
      SerializeSplits(rest);
      SplitAround(head, '&', Serialize(rest));
      var tail := Text.SplitOn(Serialize(rest), '&');
      var pieces := Text.SplitOn(Serialize(params), '&');
      assert pieces == [head] + tail;
      forall i | 1 <= i < |params|
        ensures pieces[i] == EncodePair(params[i])
      {
        assert params[i] == rest[i - 1] && pieces[i] == tail[i - 1];
      }
    }
  }

  lemma PairSplits(p: (string, string))
    ensures '&' !in EncodePair(p)
    ensures Text.SplitOn(EncodePair(p), '=') == [EncodeComponent(p.0), EncodeComponent(p.1)]
  {
    ComponentHasNoSeparator(p.0);
    ComponentHasNoSeparator(p.1);
    NoSeparatorSplitsWhole(EncodeComponent(p.1), '=');
    SplitAround(EncodeComponent(p.0), '=', EncodeComponent(p.1));
  }

  /** A string without the separator splits into itself alone. */
  lemma {:induction false} NoSeparatorSplitsWhole(s: string, sep: char)
    requires sep !in s
    ensures Text.SplitOn(s, sep) == [s]
  {
    if s != [] {
      NoSeparatorSplitsWhole(s[1..], sep);
      assert s[0] in s && s == [s[0]] + s[1..];
    }
  }

  /** Splitting `a + [sep] + b`, with no separator in `a`, gives `a` and then the pieces of `b`. */
  lemma {:induction false} SplitAround(a: string, sep: char, b: string)
    requires sep !in a
    ensures Text.SplitOn(a + [sep] + b, sep) == [a] + Text.SplitOn(b, sep)
  {
    if a == [] {
      assert a + [sep] + b == [sep] + b;
      assert ([sep] + b)[1..] == b;
    } else {
      SplitAround(a[1..], sep, b);
      assert (a + [sep] + b)[1..] == a[1..] + [sep] + b;
      assert a[0] in a && a == [a[0]] + a[1..];
    }
  }
}
