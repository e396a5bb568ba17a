/**
 * kickstart/kickstartbuilder.php: a web script that answers a GET request
 * with the text of a Red Hat kickstart file for a VM.  The request's query
 * string becomes its key/value pairs as PHP decodes them, `crypt` a
 * parameter that is never interpreted.
 */
module Kickstart {
  import opened Strings

  /** The query string's key/value pairs, in order. */
  type Query = seq<(string, string)>

  /**
   * `$_GET[k]`: a key given twice keeps its last value; an undefined index
   * reads as null, which interpolates and compares as "".
   */
  function Get(q: Query, k: string): (v: string)
    ensures (forall i :: 0 <= i < |q| ==> q[i].0 != k) ==> v == ""
    decreases |q|
  {
    if |q| == 0 then "" else if q[|q| - 1].0 == k then q[|q| - 1].1 else Get(q[..|q| - 1], k)
  }

  /** The value of the last pair carrying the key. */
  lemma {:induction false} GetLast(q: Query, k: string, i: nat)
    requires i < |q| && q[i].0 == k
    requires forall j :: i < j < |q| ==> q[j].0 != k
    ensures Get(q, k) == q[i].1
    decreases |q|
  {
    if i < |q| - 1 {
      var init := q[..|q| - 1];
      assert forall j :: i < j < |init| ==> init[j] == q[j];
      GetLast(init, k, i);
    }
  }

  /** One `key=value` piece, split at its first '='; a piece without '=' has the value "". */
  function SplitPair(piece: string): (p: (string, string))
    ensures Lacks(p.0, '=')
  {
    var k := CutAt(piece, '=');
    (k, if |k| < |piece| then piece[|k| + 1..] else "")
  }

  /** A hexadecimal digit as `urldecode` reads it, in either case. */
  predicate IsUrlHex(c: char)
  {
    '0' <= c <= '9' || 'a' <= c <= 'f' || 'A' <= c <= 'F'
  }

  function UrlHexValue(c: char): (d: nat)
    requires IsUrlHex(c)
    ensures d < 16
  {
    if c <= '9' then (c as int - '0' as int) as nat
    else if c <= 'F' then (c as int - 'A' as int + 10) as nat
    else (c as int - 'a' as int + 10) as nat
  }

  /**
   * PHP's `urldecode`: '+' is a space, '%' and two hexadecimal digits are the
   * character of that code, and any other '%' stays as it is.
   */
  function UrlDecode(s: string): (r: string)
    ensures |r| <= |s|
    decreases |s|
  {
    if |s| == 0 then ""
    else if s[0] == '+' then " " + UrlDecode(s[1..])
    else if s[0] == '%' && |s| > 2 && IsUrlHex(s[1]) && IsUrlHex(s[2]) then
      [(UrlHexValue(s[1]) * 16 + UrlHexValue(s[2])) as char] + UrlDecode(s[3..])
    else [s[0]] + UrlDecode(s[1..])
  }

  /** Text without '+' and '%' decodes to itself. */
  lemma {:induction false} UrlDecodePlain(s: string)
    requires Lacks(s, '+') && Lacks(s, '%')
    ensures UrlDecode(s) == s
    decreases |s|
  {
    if |s| > 0 {
      UrlDecodePlain(s[1..]);
      assert [s[0]] + s[1..] == s;
    }
  }

  /** Any other text is changed: a '+' reads as a space, `%41` as 'A'. */
  lemma UrlDecodeChanges()
    ensures UrlDecode("a+b") == "a b"
    ensures UrlDecode("%41") == "A"
  {
    var plus := "a+b";
    assert plus[1..] == "+b" && plus[1..][1..] == "b";
    assert UrlDecode("b") == "b" by {
      assert "b"[1..] == "";
    }
    var pct := "%41";
    assert IsUrlHex(pct[1]) && IsUrlHex(pct[2]) && pct[3..] == "";
    assert UrlHexValue(pct[1]) * 16 + UrlHexValue(pct[2]) == 65;
  }

  /**
   * How PHP fills `$_GET` from the raw query string: pieces between '&',
   * each split at its first '=', and both halves `urldecode`d.
   */
  function ParseQuery(s: string): (q: Query)
    ensures |q| == |SplitOn(s, '&')|
  {
    var pieces := SplitOn(s, '&');
    seq(|pieces|, i requires 0 <= i < |pieces| => DecodePair(SplitPair(pieces[i])))
  }

  function DecodePair(p: (string, string)): (string, string)
  {
    (UrlDecode(p.0), UrlDecode(p.1))
  }

  /** The query string a list of pairs makes up. */
  function EncodeQuery(ps: Query): string
  {
    JoinWith(seq(|ps|, i requires 0 <= i < |ps| => ps[i].0 + "=" + ps[i].1), '&')
  }

  /**
   * The query a client sends for a URL: the text after the first '?', up to
   * the '#' that starts the fragment, which stays with the client; "" when
   * there is no '?'.
   */
  function UrlQuery(url: string): string
  {
    var target := CutAt(url, '#');
    var path := CutAt(target, '?');
    if |path| < |target| then target[|path| + 1..] else ""
  }

  lemma UrlQueryOf(base: string, query: string)
    requires Lacks(base, '?') && Lacks(base, '#') && Lacks(query, '#')
    ensures UrlQuery(base + "?" + query) == query
  {
    var url := base + "?" + query;
    assert Lacks(url, '#') by {
      LacksConcat(base, "?", '#');
      LacksConcat(base + "?", query, '#');
    }
    CutAtAbsent(url, '#');
    CutAtField(base, '?', query);
    assert url[|base| + 1..] == query;
  }

  lemma SplitPairOf(k: string, v: string)
    requires Lacks(k, '=')
    ensures SplitPair(k + "=" + v) == (k, v)
  {
    CutAtField(k, '=', v);
    assert (k + "=" + v)[|k| + 1..] == v;
  }

  /** Text `urldecode` leaves alone and the query string does not split. */
  predicate PlainValue(v: string)
  {
    Lacks(v, '&') && Lacks(v, '+') && Lacks(v, '%')
  }

  /** Each pair as `$_GET` holds it: both halves decoded. */
  function DecodeAll(ps: Query): (q: Query)
    ensures |q| == |ps|
  {
    seq(|ps|, i requires 0 <= i < |ps| => DecodePair(ps[i]))
  }

  /**
   * Parsing an encoded query gives its pairs back, each half decoded, when
   * no key holds '=' or '&' and no value '&'; exactly its pairs when no key
   * or value holds '+' or '%' either.
   */
  lemma ParseEncodeQuery(ps: Query)
    requires |ps| > 0
    requires forall i :: 0 <= i < |ps| ==> Lacks(ps[i].0, '=') && Lacks(ps[i].0, '&') && Lacks(ps[i].1, '&')
    ensures ParseQuery(EncodeQuery(ps)) == DecodeAll(ps)
    ensures (forall i :: 0 <= i < |ps| ==> PlainValue(ps[i].0) && PlainValue(ps[i].1)) ==> ParseQuery(EncodeQuery(ps)) == ps
  {
    var pieces := seq(|ps|, i requires 0 <= i < |ps| => ps[i].0 + "=" + ps[i].1);
    assert NoneHas(pieces, '&') by {
      forall i | 0 <= i < |pieces| ensures Lacks(pieces[i], '&') {
        assert pieces[i] == ps[i].0 + "=" + ps[i].1;
      }
    }
    SplitJoin(pieces, '&');
    forall i | 0 <= i < |ps| ensures SplitPair(pieces[i]) == ps[i] {
      SplitPairOf(ps[i].0, ps[i].1);
    }
    if forall i :: 0 <= i < |ps| ==> PlainValue(ps[i].0) && PlainValue(ps[i].1) {
      forall i | 0 <= i < |ps| ensures DecodePair(ps[i]) == ps[i] {
        UrlDecodePlain(ps[i].0);
        UrlDecodePlain(ps[i].1);
      }
    }
  }

  /** An encoded query holds a character other than '=' and '&' only where a key or value does. */
  lemma EncodeQueryLacks(ps: Query, c: char)
    requires c != '=' && c != '&'
    requires forall i :: 0 <= i < |ps| ==> Lacks(ps[i].0, c) && Lacks(ps[i].1, c)
    ensures Lacks(EncodeQuery(ps), c)
  {
    var pieces := seq(|ps|, i requires 0 <= i < |ps| => ps[i].0 + "=" + ps[i].1);
    assert NoneHas(pieces, c) by {
      forall i | 0 <= i < |pieces| ensures Lacks(pieces[i], c) {
        LacksConcat(ps[i].0, "=", c);
        LacksConcat(ps[i].0 + "=", ps[i].1, c);
      }
    }
    JoinLacks(pieces, '&', c);
  }

  /** The GET variables the script reads. */
  datatype KsParams = KsParams(
    name: string, distro: string, ver: string, arch: string,
    ip: string, nmask: string, gway: string, rootpw: string, swap: string)

  function FromQuery(q: Query): KsParams
  {
    KsParams(Get(q, "name"), Get(q, "distro"), Get(q, "ver"), Get(q, "arch"),
             Get(q, "ip"), Get(q, "nmask"), Get(q, "gway"), Get(q, "rootpw"), Get(q, "swap"))
  }

  /** PHP's crypt(str, salt), left uninterpreted. */
  type Crypt = (string, string) -> string

  const Salt := "$1$vfsalt"
  const Nameservers := "8.8.8.8,8.8.4.4"
  const InstallationServer := ""

  /**
   * PHP's loose `$v == '4'`: '4' is a numeric string, so a numeric `$v`
   * (white space before and, as PHP 8 allows, after it, an optional sign,
   * decimal digits with an optional fraction) is compared by value; any
   * other string is compared as text, which for "4" is the same test.
   */
  predicate LooselyFour(v: string)
  {
    FourNumeral(Strip(v))
  }

  /** The stripped text is "4" as a decimal: an optional '+', digits worth 4, a fraction of zeros. */
  predicate FourNumeral(t: string)
  {
    FourUnsigned(if |t| > 0 && t[0] == '+' then t[1..] else t)
  }

  /** Digits worth 4, then optionally '.' and zeros, and nothing else. */
  predicate FourUnsigned(u: string)
  {
    var p := UnsignedParts(u);
    && |p.0| + (if p.1 then 1 + |p.2| else 0) == |u|
    && DigitsValue(p.0) == 4
    && AllZeros(p.2)
  }

  /** The leading digits, whether a '.' follows them, and the digits after it. */
  function UnsignedParts(u: string): (p: (string, bool, string))
    ensures AllDigits(p.0) && AllDigits(p.2)
    ensures !p.1 ==> p.2 == ""
  {
    var whole := LeadingDigits(u);
    var rest := u[|whole|..];
    var dot := |rest| > 0 && rest[0] == '.';
    (whole, dot, if dot then LeadingDigits(rest[1..]) else "")
  }

  predicate AllZeros(f: string)
  {
    forall i :: 0 <= i < |f| ==> f[i] == '0'
  }

  predicate AllSpace(s: string)
  {
    forall i :: 0 <= i < |s| ==> IsSpace(s[i])
  }

  predicate AllDigits(s: string)
  {
    forall i :: 0 <= i < |s| ==> IsDigit(s[i])
  }

  /** The value of the digits `f` after a decimal point. */
  function FracValue(f: string): real
    requires AllDigits(f)
    decreases |f|
  {
    if |f| == 0 then 0.0 else (DigitValue(f[0]) as real + FracValue(f[1..])) / 10.0
  }

  /** A decimal numeral: a sign ("", "+" or "-"), digits, and perhaps '.' and more digits. */
  function Numeral(sign: string, whole: string, dot: bool, frac: string): string
  {
    sign + whole + (if dot then "." + frac else "")
  }

  /** A fraction lies in [0, 1), and is 0 exactly when its digits are zeros. */
  lemma {:induction false} FracBounds(f: string)
    requires AllDigits(f)
    ensures 0.0 <= FracValue(f) < 1.0
    ensures FracValue(f) == 0.0 <==> AllZeros(f)
    decreases |f|
  {
    if |f| > 0 {
      FracBounds(f[1..]);
      assert forall i :: 1 <= i < |f| ==> f[i] == f[1..][i - 1];
    }
  }

  /**
   * For every decimal numeral with white space around it, `$v == '4'`
   * holds exactly when the numeral is not negative and its value is 4.
   */
  lemma LooselyFourNumeral(a: string, sign: string, whole: string, dot: bool, frac: string, b: string)
    requires AllSpace(a) && AllSpace(b)
    requires sign == "" || sign == "+" || sign == "-"
    requires AllDigits(whole) && AllDigits(frac) && (|whole| > 0 || |frac| > 0)
    requires !dot ==> frac == ""
    ensures LooselyFour(a + Numeral(sign, whole, dot, frac) + b)
      <==> sign != "-" && DigitsValue(whole) as real + FracValue(frac) == 4.0
  {
    NumeralStripped(a, sign, whole, dot, frac, b);
    NumeralValue(sign, whole, dot, frac);
  }

  /** The parts of a numeral with white space around it. */
  predicate NumeralParts(a: string, sign: string, whole: string, dot: bool, frac: string, b: string)
  {
    && AllSpace(a) && AllSpace(b)
    && (sign == "" || sign == "+" || sign == "-")
    && AllDigits(whole) && AllDigits(frac) && (|whole| > 0 || |frac| > 0)
    && (!dot ==> frac == "")
  }

  /** The white space lstrip drops. */
  function LeadingSpace(v: string): string
  {
    v[..|v| - |SkipSpace(v)|]
  }

  /** The white space rstrip then drops. */
  function TrailingSpace(v: string): string
  {
    SkipSpace(v)[|Strip(v)|..]
  }

  /** The parts the numeral test reads from stripped text: sign, digits, whether a '.' follows, fraction. */
  function NumeralOf(t: string): (string, string, bool, string)
  {
    var sign := if |t| > 0 && t[0] == '+' then "+" else "";
    var p := UnsignedParts(if |t| > 0 && t[0] == '+' then t[1..] else t);
    (sign, p.0, p.1, p.2)
  }

  /**
   * Conversely, every string loosely equal to '4' is such a numeral, with
   * white space around it, whose value is 4.
   */
  lemma LooselyFourShape(v: string)
    requires LooselyFour(v)
    ensures var p := NumeralOf(Strip(v));
      && NumeralParts(LeadingSpace(v), p.0, p.1, p.2, p.3, TrailingSpace(v))
      && v == LeadingSpace(v) + Numeral(p.0, p.1, p.2, p.3) + TrailingSpace(v)
      && p.0 != "-" && DigitsValue(p.1) as real + FracValue(p.3) == 4.0
  {
    var t := Strip(v);
    var p := NumeralOf(t);
    StripShape(v);
    NumeralOfShape(t);
    NumeralValue(p.0, p.1, p.2, p.3);
  }

  /** A string is its stripped text with white space around it. */
  lemma StripShape(v: string)
    ensures AllSpace(LeadingSpace(v)) && AllSpace(TrailingSpace(v))
    ensures v == LeadingSpace(v) + Strip(v) + TrailingSpace(v)
  {
    LeadingSpaceSplit(v);
    TrailingSpaceSplit(v);
    Regroup(v, LeadingSpace(v), SkipSpace(v), Strip(v), TrailingSpace(v));
  }

  lemma Regroup(v: string, a: string, r: string, t: string, b: string)
    requires v == a + r && r == t + b
    ensures v == a + t + b
  {
  }

  lemma LeadingSpaceSplit(v: string)
    ensures AllSpace(LeadingSpace(v)) && v == LeadingSpace(v) + SkipSpace(v)
  {
    var r := SkipSpace(v);
    SkipSpaceDrops(v);
    SplitAtLen(v, LeadingSpace(v));
    assert v[|LeadingSpace(v)|..] == r;
  }

  lemma TrailingSpaceSplit(v: string)
    ensures AllSpace(TrailingSpace(v)) && SkipSpace(v) == Strip(v) + TrailingSpace(v)
  {
    var r := SkipSpace(v);
    var t := TrimEnd(r);
    assert Strip(v) == t;
    TrimEndDrops(r);
    SplitAtLen(r, t);
  }

  /** A prefix and the rest make up the whole. */
  lemma SplitAtLen(r: string, t: string)
    requires |t| <= |r| && t == r[..|t|]
    ensures r == t + r[|t|..]
  {
  }

  /** Text that passes the numeral test is the numeral of its parts. */
  lemma NumeralOfShape(t: string)
    requires FourNumeral(t)
    ensures var p := NumeralOf(t);
      && NumeralParts("", p.0, p.1, p.2, p.3, "") && t == Numeral(p.0, p.1, p.2, p.3)
  {
    var p := NumeralOf(t);
    var u := if |t| > 0 && t[0] == '+' then t[1..] else t;
    var q := UnsignedParts(u);
    assert p == (p.0, q.0, q.1, q.2);
    assert |q.0| > 0 by {
      assert DigitsValue(q.0) == 4;
    }
    assert t == p.0 + u;
    UnsignedSplit(u);
    var tail := if q.1 then "." + q.2 else "";
    Regroup(t, p.0, u, q.0, tail);
  }

  lemma UnsignedSplit(u: string)
    requires FourUnsigned(u)
    ensures var p := UnsignedParts(u);
      u == p.0 + (if p.1 then "." + p.2 else "")
  {
    var p := UnsignedParts(u);
    var rest := u[|p.0|..];
    assert u == p.0 + rest;
    if p.1 {
      assert rest == "." + rest[1..];
      assert rest[1..] == p.2;
    }
  }

  /** What lstrip drops is white space. */
  lemma {:induction false} SkipSpaceDrops(s: string)
    ensures AllSpace(s[..|s| - |SkipSpace(s)|])
    decreases |s|
  {
    if |s| > 0 && IsSpace(s[0]) {
      SkipSpaceDrops(s[1..]);
      var k := |s| - |SkipSpace(s)|;
      assert forall i :: 1 <= i < k ==> s[..k][i] == s[1..][..k - 1][i - 1];
    }
  }

  /** What rstrip drops is white space. */
  lemma {:induction false} TrimEndDrops(s: string)
    ensures AllSpace(s[|TrimEnd(s)|..])
    decreases |s|
  {
    if |s| > 0 && IsSpace(s[|s| - 1]) {
      var init := s[..|s| - 1];
      TrimEndDrops(init);
      var k := |TrimEnd(s)|;
      assert forall i :: k <= i < |s| - 1 ==> s[i] == init[i];
    }
  }

  /** White space around the numeral does not matter. */
  lemma NumeralStripped(a: string, sign: string, whole: string, dot: bool, frac: string, b: string)
    requires AllSpace(a) && AllSpace(b)
    requires sign == "" || sign == "+" || sign == "-"
    requires AllDigits(whole) && AllDigits(frac) && (|whole| > 0 || |frac| > 0)
    requires !dot ==> frac == ""
    ensures LooselyFour(a + Numeral(sign, whole, dot, frac) + b)
      <==> FourNumeral(Numeral(sign, whole, dot, frac))
  {
    NumeralEnds(sign, whole, dot, frac);
    LooselyFourAround(a, Numeral(sign, whole, dot, frac), b);
  }

  /** The numeral test is a test of the numeral's value. */
  lemma NumeralValue(sign: string, whole: string, dot: bool, frac: string)
    requires sign == "" || sign == "+" || sign == "-"
    requires AllDigits(whole) && AllDigits(frac) && (|whole| > 0 || |frac| > 0)
    requires !dot ==> frac == ""
    ensures FourNumeral(Numeral(sign, whole, dot, frac))
      <==> sign != "-" && DigitsValue(whole) as real + FracValue(frac) == 4.0
  {
    FourNumeralOf(sign, whole, dot, frac);
    FracBounds(frac);
    ValueIsFour(DigitsValue(whole), FracValue(frac));
  }

  lemma LooselyFourAround(a: string, x: string, b: string)
    requires AllSpace(a) && AllSpace(b) && |x| > 0 && !IsSpace(x[0]) && !IsSpace(x[|x| - 1])
    ensures LooselyFour(a + x + b) == FourNumeral(x)
  {
    StripAround(a, x, b);
  }

  /** A numeral starts and ends with a sign, a digit or a '.'. */
  lemma NumeralEnds(sign: string, whole: string, dot: bool, frac: string)
    requires sign == "" || sign == "+" || sign == "-"
    requires AllDigits(whole) && AllDigits(frac) && (|whole| > 0 || |frac| > 0)
    requires !dot ==> frac == ""
    ensures var x := Numeral(sign, whole, dot, frac);
      |x| > 0 && !IsSpace(x[0]) && !IsSpace(x[|x| - 1])
  {
    var tail := if dot then "." + frac else "";
    var x := sign + whole + tail;
    assert forall i :: 0 <= i < |sign| ==> !IsSpace(sign[i]);
    assert forall i :: 0 <= i < |tail| ==> !IsSpace(tail[i]) by {
      if dot {
        assert forall i :: 1 <= i < |tail| ==> tail[i] == frac[i - 1];
      }
    }
    assert forall i :: 0 <= i < |x| ==> x[i] == (if i < |sign| then sign[i] else if i < |sign| + |whole| then whole[i - |sign|] else tail[i - |sign| - |whole|]);
  }

  lemma ValueIsFour(n: nat, f: real)
    requires 0.0 <= f < 1.0
    ensures n as real + f == 4.0 <==> n == 4 && f == 0.0
  {
  }

  /** The numeral test on the stripped text, part by part. */
  lemma FourNumeralOf(sign: string, whole: string, dot: bool, frac: string)
    requires sign == "" || sign == "+" || sign == "-"
    requires AllDigits(whole) && AllDigits(frac) && (|whole| > 0 || |frac| > 0)
    requires !dot ==> frac == ""
    ensures FourNumeral(Numeral(sign, whole, dot, frac))
      <==> sign != "-" && DigitsValue(whole) == 4 && AllZeros(frac)
  {
    var u := whole + (if dot then "." + frac else "");
    NumeralJoin(sign, whole, dot, frac);
    UnsignedOf(whole, dot, frac);
    if sign == "-" {
      NotFourMinus(u);
    } else if sign == "+" {
      FourPlus(u);
    } else {
      UnsignedStart(whole, dot, frac);
      assert "" + u == u;
    }
  }

  lemma NumeralJoin(sign: string, whole: string, dot: bool, frac: string)
    ensures Numeral(sign, whole, dot, frac) == sign + (whole + (if dot then "." + frac else ""))
  {
  }

  /** Without a sign, a numeral starts with a digit or '.', so the numeral test reads it whole. */
  lemma UnsignedStart(whole: string, dot: bool, frac: string)
    requires AllDigits(whole) && (|whole| > 0 || |frac| > 0)
    requires !dot ==> frac == ""
    ensures FourNumeral(whole + (if dot then "." + frac else "")) == FourUnsigned(whole + (if dot then "." + frac else ""))
  {
    var u := whole + (if dot then "." + frac else "");
    assert |u| > 0 && u[0] != '+' by {
      if |whole| > 0 {
        assert u[0] == whole[0];
      } else {
        assert u[0] == '.';
      }
    }
  }

  /** A numeral with a '-' is not 4. */
  lemma NotFourMinus(u: string)
    ensures !FourNumeral("-" + u)
  {
    var x := "-" + u;
    assert x[0] == '-' && LeadingDigits(x) == "";
  }

  /** A '+' ahead of the digits is passed over. */
  lemma FourPlus(u: string)
    ensures FourNumeral("+" + u) == FourUnsigned(u)
  {
    assert ("+" + u)[1..] == u;
  }

  lemma UnsignedOf(whole: string, dot: bool, frac: string)
    requires AllDigits(whole) && AllDigits(frac)
    requires !dot ==> frac == ""
    ensures FourUnsigned(whole + (if dot then "." + frac else "")) <==> DigitsValue(whole) == 4 && AllZeros(frac)
  {
    var tail := if dot then "." + frac else "";
    var u := whole + tail;
    LeadingDigitsThen(whole, tail);
    assert u[|whole|..] == tail;
    if dot {
      assert tail[1..] == frac;
      LeadingDigitsAllOf(frac);
    }
  }

  /** Strip removes white space around a word that starts and ends without it. */
  lemma StripAround(a: string, x: string, b: string)
    requires AllSpace(a) && AllSpace(b) && |x| > 0 && !IsSpace(x[0]) && !IsSpace(x[|x| - 1])
    ensures Strip(a + x + b) == x
  {
    var y := x + b;
    assert a + x + b == a + y;
    SkipSpaceRun(a, y);
    TrimEndRun(x, b);
  }

  lemma {:induction false} SkipSpaceRun(a: string, y: string)
    requires AllSpace(a) && |y| > 0 && !IsSpace(y[0])
    ensures SkipSpace(a + y) == y
    decreases |a|
  {
    if |a| > 0 {
      assert (a + y)[1..] == a[1..] + y;
      SkipSpaceRun(a[1..], y);
    }
  }

  lemma {:induction false} TrimEndRun(x: string, b: string)
    requires AllSpace(b) && |x| > 0 && !IsSpace(x[|x| - 1])
    ensures TrimEnd(x + b) == x
    decreases |b|
  {
    if |b| > 0 {
      var init := b[..|b| - 1];
      assert (x + b)[..|x + b| - 1] == x + init;
      TrimEndRun(x, init);
    } else {
      assert x + b == x;
    }
  }

  /** The leading digits of digits followed by a non-digit are those digits. */
  lemma {:induction false} LeadingDigitsThen(d: string, rest: string)
    requires AllDigits(d) && (|rest| == 0 || !IsDigit(rest[0]))
    ensures LeadingDigits(d + rest) == d
    decreases |d|
  {
    if |d| > 0 {
      assert (d + rest)[1..] == d[1..] + rest;
      LeadingDigitsThen(d[1..], rest);
      assert [d[0]] + d[1..] == d;
    } else {
      assert d + rest == rest;
    }
  }

  lemma LeadingDigitsAllOf(f: string)
    requires AllDigits(f)
    ensures LeadingDigits(f) == f
  {
    LeadingDigitsThen(f, "");
    assert f + "" == f;
  }

  /** "4" and "4.0" are loosely equal to '4': the comparison is numeric. */
  lemma LooselyFourExamples()
    ensures LooselyFour("4") && LooselyFour("4.0")
  {
    FourIsFour();
    FourPointZeroIsFour();
  }

  lemma FourIsFour()
    ensures LooselyFour("4")
  {
    var four := "4";
    assert !IsSpace(four[0]) && four[1..] == "";
    assert SkipSpace(four) == four && TrimEnd(four) == four;
    assert LeadingDigits(four) == four by {
      assert LeadingDigits(four) == [four[0]] + LeadingDigits(four[1..]);
    }
    assert DigitsValue(four) == 4 by {
      assert four[..0] == "";
    }
  }

  lemma FourPointZeroIsFour()
    ensures LooselyFour("4.0")
  {
    FourPointZeroParts();
    FourPointZeroText();
    LooselyFourNumeral("", "", "4", true, "0", "");
  }

  /** The parts of "4.0": a whole part worth 4 and a fraction worth 0. */
  lemma FourPointZeroParts()
    ensures AllDigits("4") && AllDigits("0")
    ensures DigitsValue("4") as real + FracValue("0") == 4.0
  {
    assert DigitsValue("4") == 4 by {
      assert "4"[..0] == "";
    }
    assert FracValue("0") == 0.0 by {
      assert "0"[1..] == "";
    }
  }

  lemma FourPointZeroText()
    ensures "" + Numeral("", "4", true, "0") + "" == "4.0"
  {
  }

  /** "5" and "4a" are not: the first is another number, the second is not numeric. */
  lemma NotLooselyFour()
    ensures !LooselyFour("5") && !LooselyFour("4a")
  {
    FiveIsNotFour();
    FourAIsNotFour();
  }

  lemma FiveIsNotFour()
    ensures !LooselyFour("5")
  {
    var five := "5";
    assert !IsSpace(five[0]) && five[1..] == "";
    assert SkipSpace(five) == five && TrimEnd(five) == five;
    assert LeadingDigits(five) == five by {
      assert LeadingDigits(five) == [five[0]] + LeadingDigits(five[1..]);
    }
    assert DigitsValue(five) == 5 by {
      assert five[..0] == "";
    }
  }

  lemma FourAIsNotFour()
    ensures !LooselyFour("4a")
  {
    var fourA := "4a";
    assert !IsSpace(fourA[0]) && !IsSpace(fourA[1]);
    assert SkipSpace(fourA) == fourA && TrimEnd(fourA) == fourA;
    assert LeadingDigits(fourA) == "4" by {
      assert fourA[1..] == "a" && LeadingDigits("a") == "";
      assert LeadingDigits(fourA) == [fourA[0]] + LeadingDigits(fourA[1..]);
    }
  }

  const LangLine := "lang en_US.UTF-8"
  const LangSupportLine := "langsupport --default=en_US.UTF-8" + " en_US.UTF-8"
  const KeySkipLine := "key --skip"

  /** Lines 28-34. */
  function LangLines(p: KsParams): seq<string>
  {
    if (p.distro == "rhel" || p.distro == "centos") && LooselyFour(p.ver) then [LangLine, LangSupportLine]
    else [LangLine]
  }

  /** `$installation_path`. */
  function InstallPath(p: KsParams): string
  {
    JoinWith([p.distro, p.ver, p.arch], '/')
  }

  function UrlLine(p: KsParams): string
  {
    "url --url http://" + InstallationServer + "/" + InstallPath(p)
  }

  /** The network line, one word per option and value. */
  function NetworkWords(p: KsParams): seq<string>
  {
    ["network", "--device", "eth0", "--bootproto", "static", "--ip", p.ip, "--netmask", p.nmask,
     "--gateway", p.gway, "--nameserver", Nameservers, "--hostname", p.name]
  }

  function NetworkLine(p: KsParams): string
  {
    Phrase(NetworkWords(p))
  }

  function RootpwLine(p: KsParams, crypt: Crypt): string
  {
    "rootpw --iscrypted " + crypt(p.rootpw, Salt)
  }

  /** Lines 53-61. */
  const SettingsLines: seq<string> := [
    "firewall --disabled",
    "authconfig --enableshadow --enablemd5",
    "selinux --disabled",
    "timezone --utc Europe/London",
    "bootloader --location=mbr --driveorder=xvda" + " --append=\"console=xvc0\"",
    "reboot",
    "",
    "# Partitioning",
    "clearpart --all --initlabel" + " --drives=xvda,xvdb"]

  function SwapLine(p: KsParams): string
  {
    "part swap --size=" + p.swap + " --ondisk=xvdb"
  }

  /** Lines 63-75. */
  const PackageLines: seq<string> := [
    "part / --fstype ext3 --size=100" + " --grow --ondisk=xvda",
    "",
    "%packages --nobase",
    "@core",
    "yum",
    "openssh-server",
    "wget",
    "",
    "%post",
    "mkdir -p /root/.ssh",
    "chmod 0700 /root/.ssh",
    "/usr/bin/wget http://pixie.1steasy.net" + "/ks/authorized_keys" + " -O /root/.ssh/authorized_keys",
    "chmod 0600 /root/.ssh/authorized_keys"]

  /** Lines 44-50: up to the network line and the optional `key --skip` line after it. */
  function HeadLines(p: KsParams): seq<string>
  {
    ["install", UrlLine(p)] + LangLines(p) + [NetworkLine(p)] + (if p.distro == "rhel" then [KeySkipLine] else [])
  }

  /** Lines 51-75. */
  function TailLines(p: KsParams, crypt: Crypt): seq<string>
  {
    [RootpwLine(p, crypt)] + SettingsLines + [SwapLine(p)] + PackageLines
  }

  /** The lines of `$ks_out`. */
  function KsLines(p: KsParams, crypt: Crypt): seq<string>
  {
    HeadLines(p) + TailLines(p, crypt)
  }

  /** `$ks_out`, which the script echoes; it has no final newline. */
  function KickstartFile(q: Query, crypt: Crypt): string
  {
    JoinWith(KsLines(FromQuery(q), crypt), '\n')
  }

  /** Where the network line sits: after install, url and one or two lang lines. */
  function NetworkIndex(p: KsParams): nat
  {
    2 + |LangLines(p)|
  }

  /** Where the rootpw line sits: after the network line and the optional key line. */
  function RootpwIndex(p: KsParams): nat
  {
    NetworkIndex(p) + (if p.distro == "rhel" then 2 else 1)
  }

  predicate OneLine(s: string)
  {
    Lacks(s, '\n')
  }

  /** No value the script interpolates spans lines. */
  predicate SingleLineParams(p: KsParams, crypt: Crypt)
  {
    SingleLineHead(p) && OneLine(p.swap) && OneLine(crypt(p.rootpw, Salt))
  }

  predicate SingleLineHead(p: KsParams)
  {
    OneLine(p.distro) && OneLine(p.ver) && OneLine(p.arch) && OneLine(p.ip) && OneLine(p.nmask)
      && OneLine(p.gway) && OneLine(p.name)
  }

  /** The fixed lines hold no newline; the proofs go a few lines at a time. */
  lemma SettingsLineOneLine(j: nat)
    requires j < |SettingsLines|
    ensures Lacks(SettingsLines[j], '\n')
  {
    if j < 4 {
      SettingsHeadOneLine(j);
    } else if j == 4 {
      LacksConcat("bootloader --location=mbr --driveorder=xvda", " --append=\"console=xvc0\"", '\n');
    } else if j == 7 {
      var l := "# Partitioning";
      assert SettingsLines[j] == l && Lacks(l, '\n');
    } else if j == 8 {
      LacksConcat("clearpart --all --initlabel", " --drives=xvda,xvdb", '\n');
    }
  }

  lemma SettingsHeadOneLine(j: nat)
    requires j < 4
    ensures Lacks(SettingsLines[j], '\n')
  {
    if j == 0 {
      var l := "firewall --disabled";
      assert SettingsLines[j] == l && Lacks(l, '\n');
    } else if j == 1 {
      var l := "authconfig --enableshadow --enablemd5";
      assert SettingsLines[j] == l && Lacks(l, '\n');
    } else if j == 2 {
      var l := "selinux --disabled";
      assert SettingsLines[j] == l && Lacks(l, '\n');
    } else {
      var l := "timezone --utc Europe/London";
      assert SettingsLines[j] == l && Lacks(l, '\n');
    }
  }

  lemma PackageLineOneLine(j: nat)
    requires j < |PackageLines|
    ensures Lacks(PackageLines[j], '\n')
  {
    if j == 0 {
      LacksConcat("part / --fstype ext3 --size=100", " --grow --ondisk=xvda", '\n');
    } else if j < 9 {
      PackageListOneLine(j);
    } else if j < 11 {
      var l := if j == 9 then "mkdir -p /root/.ssh" else "chmod 0700 /root/.ssh";
      assert PackageLines[j] == l && Lacks(l, '\n');
    } else if j == 11 {
      LacksConcat("/usr/bin/wget http://pixie.1steasy.net", "/ks/authorized_keys", '\n');
      LacksConcat("/usr/bin/wget http://pixie.1steasy.net" + "/ks/authorized_keys", " -O /root/.ssh/authorized_keys", '\n');
    } else {
      var l := "chmod 0600 /root/.ssh/authorized_keys";
      assert PackageLines[j] == l && Lacks(l, '\n');
    }
  }

  lemma PackageListOneLine(j: nat)
    requires 0 < j < 9
    ensures Lacks(PackageLines[j], '\n')
  {
    if j == 2 {
      var l := "%packages --nobase";
      assert PackageLines[j] == l && Lacks(l, '\n');
    } else if j == 5 {
      var l := "openssh-server";
      assert PackageLines[j] == l && Lacks(l, '\n');
    }
  }

  lemma FixedLinesDistinct()
    ensures forall j :: 0 <= j < |SettingsLines| ==> SettingsLines[j] != LangSupportLine && SettingsLines[j] != KeySkipLine
    ensures forall j :: 0 <= j < |PackageLines| ==> PackageLines[j] != LangSupportLine && PackageLines[j] != KeySkipLine
  {
  }

  /** The lines that carry parameters begin with a letter no fixed line they could be confused with has. */
  lemma LineHeads(p: KsParams)
    ensures UrlLine(p)[0] == 'u' && NetworkLine(p)[0] == 'n'
    ensures LangSupportLine[0] == 'l' && KeySkipLine[0] == 'k' && |LangLine| != |LangSupportLine|
  {
    assert NetworkLine(p) == "network" + " " + Phrase(NetworkWords(p)[1..]);
  }

  /** A line of the file is a head line or a tail line. */
  lemma KsLineAt(p: KsParams, crypt: Crypt, i: nat)
    requires i < |KsLines(p, crypt)|
    ensures KsLines(p, crypt)[i] == if i < |HeadLines(p)| then HeadLines(p)[i] else TailLines(p, crypt)[i - |HeadLines(p)|]
  {
  }

  /** Only the line after the lang line can be the langsupport line, and only the line after the network line the key line. */
  lemma LineFacts(p: KsParams, crypt: Crypt, i: nat)
    requires i < |KsLines(p, crypt)|
    ensures var l := KsLines(p, crypt)[i];
      && (l == LangSupportLine ==> i == 3 && |LangLines(p)| == 2)
      && (l == KeySkipLine ==> i == NetworkIndex(p) + 1 && p.distro == "rhel")
  {
    KsLineAt(p, crypt, i);
    if i < |HeadLines(p)| {
      HeadLineFacts(p, i);
    } else {
      TailLineFacts(p, crypt, i - |HeadLines(p)|);
    }
  }

  /** The head line at position `i`, case by case. */
  lemma HeadLineAt(p: KsParams, i: nat)
    requires i < |HeadLines(p)|
    ensures HeadLines(p)[i] == (if i == 0 then "install" else if i == 1 then UrlLine(p)
                                else if i == 2 then LangLine else if i < NetworkIndex(p) then LangSupportLine
                                else if i == NetworkIndex(p) then NetworkLine(p) else KeySkipLine)
    ensures |HeadLines(p)| == RootpwIndex(p)
  {
    var a := ["install", UrlLine(p)] + LangLines(p);
    var b := [NetworkLine(p)] + (if p.distro == "rhel" then [KeySkipLine] else []);
    HeadLinesSplit(p);
    if i < |a| {
      assert HeadLines(p)[i] == a[i];
    } else {
      assert HeadLines(p)[i] == b[i - |a|];
    }
  }

  lemma HeadLinesSplit(p: KsParams)
    ensures HeadLines(p) == (["install", UrlLine(p)] + LangLines(p)) + ([NetworkLine(p)] + (if p.distro == "rhel" then [KeySkipLine] else []))
  {
  }

  /** The rootpw line opens the tail, and the swap line follows the nine settings lines. */
  lemma TailLineAt(p: KsParams, crypt: Crypt)
    ensures |TailLines(p, crypt)| > 10
    ensures TailLines(p, crypt)[0] == RootpwLine(p, crypt) && TailLines(p, crypt)[10] == SwapLine(p)
  {
    assert |SettingsLines| == 9;
  }

  lemma HeadLineFacts(p: KsParams, i: nat)
    requires i < |HeadLines(p)|
    ensures var l := HeadLines(p)[i];
      && (l == LangSupportLine ==> i == 3 && |LangLines(p)| == 2)
      && (l == KeySkipLine ==> i == NetworkIndex(p) + 1 && p.distro == "rhel")
  {
    LineHeads(p);
    HeadLineAt(p, i);
  }

  lemma TailLineFacts(p: KsParams, crypt: Crypt, j: nat)
    requires j < |TailLines(p, crypt)|
    ensures TailLines(p, crypt)[j] != LangSupportLine && TailLines(p, crypt)[j] != KeySkipLine
  {
    var t := TailLines(p, crypt);
    if j == 0 {
      assert "rootpw --iscrypted "[0] == 'r';
      assert t[j][0] == 'r';
    } else if j <= 9 {
      FixedLinesDistinct();
      assert t[j] == SettingsLines[j - 1];
    } else if j == 10 {
      assert t[j] == SwapLine(p) && SwapLine(p)[0] == 'p';
    } else {
      FixedLinesDistinct();
      assert t[j] == PackageLines[j - 11];
    }
    assert LangSupportLine[0] == 'l' && KeySkipLine[0] == 'k';
  }

  /** No line of the file holds a newline when no interpolated value does. */
  lemma LineLacksNewline(p: KsParams, crypt: Crypt, i: nat)
    requires SingleLineParams(p, crypt) && i < |KsLines(p, crypt)|
    ensures Lacks(KsLines(p, crypt)[i], '\n')
  {
    KsLineAt(p, crypt, i);
    if i < |HeadLines(p)| {
      HeadLineOneLine(p, i);
    } else {
      TailLineOneLine(p, crypt, i - |HeadLines(p)|);
    }
  }

  lemma HeadLineOneLine(p: KsParams, i: nat)
    requires SingleLineHead(p) && i < |HeadLines(p)|
    ensures Lacks(HeadLines(p)[i], '\n')
  {
    HeadLineAt(p, i);
    FixedHeadOneLine();
    if i == 1 {
      UrlLineOneLine(p);
    } else if 2 < i < NetworkIndex(p) {
      LangSupportOneLine();
    } else if i == NetworkIndex(p) {
      NetworkWordsOneLine(p);
      PhraseLacks(NetworkWords(p), '\n');
    }
  }

  lemma FixedHeadOneLine()
    ensures Lacks("install", '\n') && Lacks(LangLine, '\n') && Lacks(KeySkipLine, '\n')
  {
  }

  lemma UrlLineOneLine(p: KsParams)
    requires OneLine(p.distro) && OneLine(p.ver) && OneLine(p.arch)
    ensures Lacks(UrlLine(p), '\n')
  {
    JoinLacks([p.distro, p.ver, p.arch], '/', '\n');
    var u := "url --url http://" + InstallationServer + "/";
    assert u == "url --url http:///" && Lacks(u, '\n');
    LacksConcat(u, InstallPath(p), '\n');
  }

  lemma LangSupportOneLine()
    ensures Lacks(LangSupportLine, '\n')
  {
    LacksConcat("langsupport --default=en_US.UTF-8", " en_US.UTF-8", '\n');
  }

  lemma NetworkWordsOneLine(p: KsParams)
    requires OneLine(p.ip) && OneLine(p.nmask) && OneLine(p.gway) && OneLine(p.name)
    ensures NoneHas(NetworkWords(p), '\n')
  {
    var ws := NetworkWords(p);
    forall j | 0 <= j < |ws| ensures Lacks(ws[j], '\n') {
      if j == 12 {
        assert ws[j] == "8.8.8.8,8.8.4.4";
      }
    }
  }

  lemma TailLineOneLine(p: KsParams, crypt: Crypt, j: nat)
    requires SingleLineParams(p, crypt) && j < |TailLines(p, crypt)|
    ensures Lacks(TailLines(p, crypt)[j], '\n')
  {
    var t := TailLines(p, crypt);
    if j == 0 {
      assert t[j] == RootpwLine(p, crypt);
      LacksConcat("rootpw --iscrypted ", crypt(p.rootpw, Salt), '\n');
    } else if j <= 9 {
      assert t[j] == SettingsLines[j - 1];
      SettingsLineOneLine(j - 1);
    } else if j == 10 {
      assert t[j] == SwapLine(p);
      LacksConcat("part swap --size=", p.swap, '\n');
      LacksConcat("part swap --size=" + p.swap, " --ondisk=xvdb", '\n');
    } else {
      assert t[j] == PackageLines[j - 11];
      PackageLineOneLine(j - 11);
    }
  }

  /** Splitting the echoed text at newlines gives the lines back. */
  lemma KickstartFileLines(q: Query, crypt: Crypt)
    requires SingleLineParams(FromQuery(q), crypt)
    ensures SplitOn(KickstartFile(q, crypt), '\n') == KsLines(FromQuery(q), crypt)
  {
    var p := FromQuery(q);
    var ls := KsLines(p, crypt);
    forall i | 0 <= i < |ls| ensures Lacks(ls[i], '\n') {
      LineLacksNewline(p, crypt, i);
    }
    SplitJoin(ls, '\n');
  }

  /**
   * Lines 28-34 and 44-46: the langsupport line is present exactly for rhel
   * or centos version 4, and then right after the lang line.
   */
  lemma LangSupportIff(q: Query, crypt: Crypt)
    ensures var p := FromQuery(q);
      (LangSupportLine in KsLines(p, crypt)) <==> (p.distro == "rhel" || p.distro == "centos") && LooselyFour(p.ver)
    ensures var ls := KsLines(FromQuery(q), crypt);
      ls[2] == LangLine && (LangSupportLine in ls ==> ls[3] == LangSupportLine)
  {
    LangSupportWhere(FromQuery(q), crypt);
  }

  lemma LangSupportWhere(p: KsParams, crypt: Crypt)
    ensures (LangSupportLine in KsLines(p, crypt)) <==> |LangLines(p)| == 2
    ensures KsLines(p, crypt)[2] == LangLine
    ensures LangSupportLine in KsLines(p, crypt) ==> KsLines(p, crypt)[3] == LangSupportLine
  {
    var ls := KsLines(p, crypt);
    forall i | 0 <= i < |ls| ensures ls[i] == LangSupportLine ==> i == 3 && |LangLines(p)| == 2 {
      LineFacts(p, crypt, i);
    }
    HeadLineAt(p, 2);
    KsLineAt(p, crypt, 2);
    if |LangLines(p)| == 2 {
      HeadLineAt(p, 3);
      KsLineAt(p, crypt, 3);
    }
  }

  /**
   * Lines 36-50: `key --skip` is present exactly for rhel, and then it is
   * the line right after the network line.
   */
  lemma KeySkipIff(q: Query, crypt: Crypt)
    ensures var p := FromQuery(q);
      (KeySkipLine in KsLines(p, crypt)) <==> p.distro == "rhel"
    ensures var p := FromQuery(q);
      p.distro == "rhel" ==> KsLines(p, crypt)[NetworkIndex(p) + 1] == KeySkipLine
  {
    var p := FromQuery(q);
    var ls := KsLines(p, crypt);
    forall i | 0 <= i < |ls| ensures ls[i] == KeySkipLine ==> i == NetworkIndex(p) + 1 && p.distro == "rhel" {
      LineFacts(p, crypt, i);
    }
    if p.distro == "rhel" {
      assert ls[NetworkIndex(p) + 1] == KeySkipLine;
    }
  }

  /** The words of the network line that are not parameters. */
  lemma NetworkFixedWords()
    ensures AllWords(["network", "--device", "eth0", "--bootproto", "static", "--ip"])
    ensures AllWords(["--netmask", "--gateway", "--nameserver", Nameservers, "--hostname"])
  {
    NetworkFixedWordsStart();
    NetworkFixedWordsEnd();
  }

  lemma NetworkFixedWordsStart()
    ensures AllWords(["network", "--device", "eth0", "--bootproto", "static", "--ip"])
  {
    assert NoSpace("network") && NoSpace("--device");
    assert NoSpace("eth0") && NoSpace("--bootproto");
    assert NoSpace("static") && NoSpace("--ip");
  }

  lemma NetworkFixedWordsEnd()
    ensures AllWords(["--netmask", "--gateway", "--nameserver", Nameservers, "--hostname"])
  {
    assert NoSpace("--netmask") && NoSpace("--gateway");
    assert NoSpace("--nameserver");
    assert NoSpace(Nameservers);
    assert NoSpace("--hostname");
  }

  /** Splitting the network line at white space gives its words back. */
  lemma NetworkLineWords(p: KsParams)
    requires AllWords([p.ip, p.nmask, p.gway, p.name])
    ensures Words(NetworkLine(p) + "\n") == NetworkWords(p)
  {
    var ws := NetworkWords(p);
    var params := [p.ip, p.nmask, p.gway, p.name];
    NetworkFixedWords();
    assert AllWords(ws) by {
      forall i | 0 <= i < |ws| ensures |ws[i]| > 0 && NoSpace(ws[i]) {
        if i == 6 { assert ws[i] == params[0]; }
        else if i == 8 { assert ws[i] == params[1]; }
        else if i == 10 { assert ws[i] == params[2]; }
        else if i == 14 { assert ws[i] == params[3]; }
        else if i < 6 { assert ws[i] == ["network", "--device", "eth0", "--bootproto", "static", "--ip"][i]; }
        else if i == 7 { assert ws[i] == ["--netmask", "--gateway", "--nameserver", Nameservers, "--hostname"][0]; }
        else if i == 9 { assert ws[i] == ["--netmask", "--gateway", "--nameserver", Nameservers, "--hostname"][1]; }
        else if i == 11 { assert ws[i] == ["--netmask", "--gateway", "--nameserver", Nameservers, "--hostname"][2]; }
        else if i == 12 { assert ws[i] == ["--netmask", "--gateway", "--nameserver", Nameservers, "--hostname"][3]; }
        else { assert ws[i] == ["--netmask", "--gateway", "--nameserver", Nameservers, "--hostname"][4]; }
      }
    }
    WordsOfPhrase(ws);
  }

  /**
   * The network line, split into words, carries the ip, nmask and gway
   * parameters after --ip, --netmask and --gateway and the name after
   * --hostname; the install URL's path is distro/ver/arch.
   */
  lemma NetworkAndUrl(q: Query, crypt: Crypt)
    requires AllWords([Get(q, "ip"), Get(q, "nmask"), Get(q, "gway"), Get(q, "name")])
    ensures var p := FromQuery(q); var ls := KsLines(p, crypt);
      var ws := Words(ls[NetworkIndex(p)] + "\n");
      && |ws| == 15 && ws[0] == "network"
      && ws[5] == "--ip" && ws[6] == Get(q, "ip")
      && ws[7] == "--netmask" && ws[8] == Get(q, "nmask")
      && ws[9] == "--gateway" && ws[10] == Get(q, "gway")
      && ws[13] == "--hostname" && ws[14] == Get(q, "name")
    ensures var p := FromQuery(q);
      && KsLines(p, crypt)[1] == "url --url http:///" + InstallPath(p)
      && (Lacks(p.distro, '/') && Lacks(p.ver, '/') && Lacks(p.arch, '/') ==>
            SplitOn(InstallPath(p), '/') == [Get(q, "distro"), Get(q, "ver"), Get(q, "arch")])
  {
    var p := FromQuery(q);
    NetworkLineIn(p, crypt);
    NetworkWordsAt(p);
    UrlLineParts(p, crypt);
  }

  /** The options and values of the network line, by position. */
  lemma NetworkWordsAt(p: KsParams)
    ensures var ws := NetworkWords(p);
      && |ws| == 15 && ws[0] == "network"
      && ws[5] == "--ip" && ws[6] == p.ip
      && ws[7] == "--netmask" && ws[8] == p.nmask
      && ws[9] == "--gateway" && ws[10] == p.gway
      && ws[13] == "--hostname" && ws[14] == p.name
  {
  }

  lemma NetworkLineIn(p: KsParams, crypt: Crypt)
    requires AllWords([p.ip, p.nmask, p.gway, p.name])
    ensures Words(KsLines(p, crypt)[NetworkIndex(p)] + "\n") == NetworkWords(p)
  {
    HeadLineAt(p, NetworkIndex(p));
    KsLineAt(p, crypt, NetworkIndex(p));
    NetworkLineWords(p);
  }

  lemma UrlLineParts(p: KsParams, crypt: Crypt)
    ensures KsLines(p, crypt)[1] == "url --url http:///" + InstallPath(p)
    ensures Lacks(p.distro, '/') && Lacks(p.ver, '/') && Lacks(p.arch, '/') ==>
              SplitOn(InstallPath(p), '/') == [p.distro, p.ver, p.arch]
  {
    HeadLineAt(p, 1);
    KsLineAt(p, crypt, 1);
    if Lacks(p.distro, '/') && Lacks(p.ver, '/') && Lacks(p.arch, '/') {
      InstallPathParts(p);
    }
  }

  /** With no '/' inside distro, ver or arch, the install path splits back into them. */
  lemma InstallPathParts(p: KsParams)
    requires Lacks(p.distro, '/') && Lacks(p.ver, '/') && Lacks(p.arch, '/')
    ensures SplitOn(InstallPath(p), '/') == [p.distro, p.ver, p.arch]
  {
    SplitJoin([p.distro, p.ver, p.arch], '/');
  }

  /** The swap partition is on xvdb with the requested size; the root password appears crypted. */
  lemma SwapAndRootpw(q: Query, crypt: Crypt)
    ensures var p := FromQuery(q); var ls := KsLines(p, crypt);
      && ls[RootpwIndex(p) + 10] == "part swap --size=" + Get(q, "swap") + " --ondisk=xvdb"
      && ls[RootpwIndex(p)] == "rootpw --iscrypted " + crypt(Get(q, "rootpw"), "$1$vfsalt")
  {
    var p := FromQuery(q);
    HeadLineAt(p, 0);
    TailLineAt(p, crypt);
    KsLineAt(p, crypt, RootpwIndex(p));
    KsLineAt(p, crypt, RootpwIndex(p) + 10);
  }

  /**
   * The plain root password never reaches the output except through crypt:
   * two requests that agree on everything else and whose passwords crypt
   * alike produce the same file.
   */
  lemma RootpwOnlyCrypted(q1: Query, q2: Query, crypt: Crypt)
    requires var p1 := FromQuery(q1); var p2 := FromQuery(q2);
      p1.(rootpw := p2.rootpw) == p2 && crypt(p1.rootpw, Salt) == crypt(p2.rootpw, Salt)
    ensures KickstartFile(q1, crypt) == KickstartFile(q2, crypt)
  {
    var p1 := FromQuery(q1);
    var p2 := FromQuery(q2);
    assert p1.distro == p2.distro && p1.ver == p2.ver;
    assert LangLines(p1) == LangLines(p2);
    assert UrlLine(p1) == UrlLine(p2) && NetworkLine(p1) == NetworkLine(p2) && SwapLine(p1) == SwapLine(p2);
    assert RootpwLine(p1, crypt) == RootpwLine(p2, crypt);
    assert KsLines(p1, crypt) == KsLines(p2, crypt);
  }
}
