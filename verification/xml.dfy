/** The element-tree interface the object parsers consume, and the small
    pieces of Python string handling they rely on.

    An element is a tag, an attribute dictionary and its child elements;
    `findall(tag)` selects the direct children with that tag, in document
    order. File-system paths stay symbolic: `os.path.join`,
    `os.path.dirname` and `os.path.abspath` build terms instead of strings. */
module Xml {
  import opened Py

  datatype Element = Element(tag: string, attrib: map<string, string>, children: seq<Element>)

  datatype FsPath =
    | Dir(path: string)
    | Join(base: FsPath, relative: string)
    | DirName(of: FsPath)
    | AbsPath(of: FsPath)

  /** `os.path.abspath(os.path.join(root, relative))`. */
  function Resolve(root: FsPath, relative: string): FsPath
  {
    AbsPath(Join(root, relative))
  }

  function Filter(es: seq<Element>, tag: string): (r: seq<Element>)
    ensures |r| <= |es|
    ensures forall e | e in r :: e.tag == tag && e in es
    ensures forall e | e in es && e.tag == tag :: e in r
    decreases |es|
  {
    if |es| == 0 then []
    else if es[0].tag == tag then [es[0]] + Filter(es[1..], tag)
    else Filter(es[1..], tag)
  }

  /** `element.findall(tag)`. */
  function FindAll(e: Element, tag: string): seq<Element>
  {
    Filter(e.children, tag)
  }

  /** `element.attrib[key]`: a missing attribute raises `KeyError`. */
  function Attr(e: Element, key: string): (r: Result<string>)
    ensures r.Ok? <==> key in e.attrib
    ensures r.Ok? ==> r.value == e.attrib[key]
    ensures r.Raise? ==> r.error == KeyError(key)
  {
    if key in e.attrib then Ok(e.attrib[key]) else Raise(KeyError(key))
  }

  // ---------------------------------------------------------------------
  // int(s) and str(n)

  /** Whitespace that `int()` strips around its argument. */
  predicate IsSpace(c: char)
  {
    c == ' ' || c == '\t' || c == '\n' || c == '\r' || c == '\U{B}' || c == '\U{C}'
  }

  predicate IsDigit(c: char) { '0' <= c <= '9' }

  /** `s` without its leading whitespace: only whitespace is cut, and all of it. */
  function TrimLeft(s: string): (r: string)
    ensures |r| <= |s| && r == s[|s| - |r|..]
    ensures forall i | 0 <= i < |s| - |r| :: IsSpace(s[i])
    ensures |r| > 0 ==> !IsSpace(r[0])
    decreases |s|
  {
    if |s| > 0 && IsSpace(s[0]) then TrimLeft(s[1..]) else s
  }

  /** `s` without its trailing whitespace: only whitespace is cut, and all of it. */
  function TrimRight(s: string): (r: string)
    ensures |r| <= |s| && r == s[..|r|]
    ensures forall i | |r| <= i < |s| :: IsSpace(s[i])
    ensures |r| > 0 ==> !IsSpace(r[|r| - 1])
    decreases |s|
  {
    if |s| > 0 && IsSpace(s[|s| - 1]) then TrimRight(s[..|s| - 1]) else s
  }

  function DigitValue(c: char): nat
    requires IsDigit(c)
  {
    c as int - '0' as int
  }

  /** The value of a non-empty run of decimal digits. */
  function DigitsValue(ds: string): nat
    requires forall i | 0 <= i < |ds| :: IsDigit(ds[i])
    decreases |ds|
  {
    if |ds| == 0 then 0
    else DigitsValue(ds[..|ds| - 1]) * 10 + DigitValue(ds[|ds| - 1])
  }

  /** A non-empty run of decimal digits. */
  predicate AllDigits(ds: string)
  {
    |ds| >= 1 && forall i | 0 <= i < |ds| :: IsDigit(ds[i])
  }

  /** The value of a run of digits under a sign: "-", "+" or none. */
  function SignedValue(sign: string, ds: string): int
    requires AllDigits(ds)
  {
    if sign == "-" then -(DigitsValue(ds) as int) else DigitsValue(ds) as int
  }

  /** What `int()` accepts once the surrounding whitespace is gone: decimal
      digits, or a sign followed by optional whitespace and decimal digits
      (Python 2 skips whitespace both before and after the sign). */
  predicate Numeral(t: string)
  {
    if |t| > 0 && (t[0] == '+' || t[0] == '-') then AllDigits(TrimLeft(t[1..])) else AllDigits(t)
  }

  /** Python's `int(s)` on a string: surrounding whitespace, an optional sign,
      optional whitespace and at least one decimal digit; anything else raises
      `ValueError`. The value itself is pinned by `ParseIntOfParts` and
      `ParseIntParts`. */
  function ParseInt(s: string): (r: Result<int>)
    ensures r.Ok? <==> Numeral(TrimRight(TrimLeft(s)))
    ensures r.Raise? ==> r.error.ValueError?
  {
    match ParseSigned(TrimRight(TrimLeft(s)))
    case Some(v) => Ok(v)
    case None => Raise(ValueError("invalid literal for int() with base 10: " + s))
  }

  /** A numeral's value: the digits after the sign and its whitespace. */
  function ParseSigned(t: string): (r: Option<int>)
    ensures r.Some? <==> Numeral(t)
  {
    if |t| > 0 && (t[0] == '+' || t[0] == '-') then
      var ds := TrimLeft(t[1..]);
      if AllDigits(ds) then Some(SignedValue([t[0]], ds)) else None
    else if AllDigits(t) then Some(DigitsValue(t) as int)
    else None
  }

  function DigitChar(d: nat): (c: char)
    requires d < 10
    ensures IsDigit(c) && DigitValue(c) == d
  {
    (d + '0' as int) as char
  }

  function NatToString(n: nat): (r: string)
    ensures AllDigits(r)
    decreases n
  {
    if n < 10 then [DigitChar(n)] else NatToString(n / 10) + [DigitChar(n % 10)]
  }

  /** Python's `str(n)` for an integer. */
  function IntToString(n: int): string
  {
    if n < 0 then "-" + NatToString(-n) else NatToString(n)
  }

  lemma {:induction false} DigitsOfNat(n: nat)
    ensures DigitsValue(NatToString(n)) == n
    decreases n
  {
    if n >= 10 {
      var p := NatToString(n / 10);
      var s := NatToString(n);
      assert s == p + [DigitChar(n % 10)];
      assert s[..|s| - 1] == p;
      DigitsOfNat(n / 10);
    }
  }

  /** `int(str(n)) == n`. */
  lemma ParseIntOfIntToString(n: int)
    ensures ParseInt(IntToString(n)) == Ok(n)
  {
    var m: nat := if n < 0 then -n else n;
    var sign, ds := if n < 0 then "-" else "", NatToString(m);
    IntToStringParts(n);
    DigitsOfNat(m);
    ParseIntOfParts("", sign, "", ds, "");
  }

  /** Whitespace may follow the sign: `int("- 5") == -5`. */
  lemma SpaceAfterSign()
    ensures ParseInt("- 5") == Ok(-5)
  {
    var five := "5";
    assert DigitsValue(five) == 5 by {
      assert five[..0] == [];
    }
    assert "- 5" == "" + "-" + " " + five + "";
    ParseIntOfParts("", "-", " ", five, "");
  }

  /** `str(n)` is a minus sign for a negative n, then the digits of |n|. */
  lemma IntToStringParts(n: int)
    ensures IntToString(n) == "" + (if n < 0 then "-" else "") + "" + NatToString(if n < 0 then -n else n) + ""
  {
  }

  /** Whitespace, an optional sign, whitespace, digits and whitespace again
      read as the digits' value, negated after a minus sign. */
  lemma ParseIntOfParts(pre: string, sign: string, mid: string, ds: string, post: string)
    requires forall i | 0 <= i < |pre| :: IsSpace(pre[i])
    requires forall i | 0 <= i < |mid| :: IsSpace(mid[i])
    requires forall i | 0 <= i < |post| :: IsSpace(post[i])
    requires sign == "" || sign == "+" || sign == "-"
    requires AllDigits(ds)
    ensures ParseInt(pre + sign + mid + ds + post) == Ok(SignedValue(sign, ds))
  {
    var t := StripSigned(pre, sign, mid, ds, post);
    ParseIntOfStripped(pre + sign + mid + ds + post, t);
  }

  /** The stripped text of such a string reads as the signed digits. */
  lemma StripSigned(pre: string, sign: string, mid: string, ds: string, post: string) returns (t: string)
    requires forall i | 0 <= i < |pre| :: IsSpace(pre[i])
    requires forall i | 0 <= i < |mid| :: IsSpace(mid[i])
    requires forall i | 0 <= i < |post| :: IsSpace(post[i])
    requires sign == "" || sign == "+" || sign == "-"
    requires AllDigits(ds)
    ensures TrimRight(TrimLeft(pre + sign + mid + ds + post)) == t
    ensures ParseSigned(t) == Some(SignedValue(sign, ds))
  {
    if sign == "" {
      t := ds;
      DropEmptySign(pre, sign, mid, ds, post);
      StripUnsigned(pre, mid, ds, post);
      ParseUnsigned(ds);
    } else {
      t := sign + mid + ds;
      Regroup5(pre, sign, mid, ds, post);
      StripSignedText(pre, sign, mid, ds, post);
      SignedText(sign, mid, ds);
    }
  }

  lemma StripUnsigned(pre: string, mid: string, ds: string, post: string)
    requires forall i | 0 <= i < |pre| :: IsSpace(pre[i])
    requires forall i | 0 <= i < |mid| :: IsSpace(mid[i])
    requires forall i | 0 <= i < |post| :: IsSpace(post[i])
    requires AllDigits(ds)
    ensures TrimRight(TrimLeft((pre + mid) + ds + post)) == ds
  {
    SpaceAppend(pre, mid);
    StripParts(pre + mid, ds, post);
  }

  lemma StripSignedText(pre: string, sign: string, mid: string, ds: string, post: string)
    requires forall i | 0 <= i < |pre| :: IsSpace(pre[i])
    requires forall i | 0 <= i < |post| :: IsSpace(post[i])
    requires sign == "+" || sign == "-"
    requires AllDigits(ds)
    ensures TrimRight(TrimLeft(pre + (sign + mid + ds) + post)) == sign + mid + ds
  {
    var t := sign + mid + ds;
    assert t[0] == sign[0];
    assert t[|t| - 1] == ds[|ds| - 1];
    StripParts(pre, t, post);
  }

  lemma ParseUnsigned(ds: string)
    requires AllDigits(ds)
    ensures ParseSigned(ds) == Some(DigitsValue(ds) as int)
  {
    assert IsDigit(ds[0]);
  }

  /** A sign, whitespace and digits read as the signed digits. */
  lemma SignedText(sign: string, mid: string, ds: string)
    requires forall i | 0 <= i < |mid| :: IsSpace(mid[i])
    requires sign == "+" || sign == "-"
    requires AllDigits(ds)
    ensures ParseSigned(sign + mid + ds) == Some(SignedValue(sign, ds))
  {
    var t := sign + mid + ds;
    assert t[0] == sign[0] && [t[0]] == sign;
    assert t[1..] == mid + ds;
    StripLeft(mid, ds);
  }

  lemma SpaceAppend(a: string, b: string)
    requires forall i | 0 <= i < |a| :: IsSpace(a[i])
    requires forall i | 0 <= i < |b| :: IsSpace(b[i])
    ensures forall i | 0 <= i < |a + b| :: IsSpace((a + b)[i])
  {
  }

  lemma DropEmptySign(pre: string, sign: string, mid: string, ds: string, post: string)
    requires sign == ""
    ensures pre + sign + mid + ds + post == (pre + mid) + ds + post
  {
  }

  lemma Regroup5(a: string, b: string, c: string, d: string, e: string)
    ensures a + b + c + d + e == a + (b + c + d) + e
  {
  }

  lemma ParseIntOfStripped(s: string, t: string)
    requires TrimRight(TrimLeft(s)) == t && ParseSigned(t).Some?
    ensures ParseInt(s) == Ok(ParseSigned(t).value)
  {
  }

  /** Whitespace around a string that starts and ends with something else
      is cut exactly. */
  lemma StripParts(pre: string, t: string, post: string)
    requires forall i | 0 <= i < |pre| :: IsSpace(pre[i])
    requires forall i | 0 <= i < |post| :: IsSpace(post[i])
    requires |t| >= 1 && !IsSpace(t[0]) && !IsSpace(t[|t| - 1])
    ensures TrimRight(TrimLeft(pre + t + post)) == t
  {
    assert pre + t + post == pre + (t + post);
    StripLeft(pre, t + post);
    StripRight(t, post);
  }

  /** Leading whitespace in front of a non-space character is cut exactly. */
  lemma {:induction false} StripLeft(pre: string, rest: string)
    requires forall i | 0 <= i < |pre| :: IsSpace(pre[i])
    requires |rest| >= 1 && !IsSpace(rest[0])
    ensures TrimLeft(pre + rest) == rest
    decreases |pre|
  {
    if |pre| == 0 {
      assert pre + rest == rest;
    } else {
      assert (pre + rest)[1..] == pre[1..] + rest;
      StripLeft(pre[1..], rest);
    }
  }

  /** Trailing whitespace behind a non-space character is cut exactly. */
  lemma {:induction false} StripRight(t: string, post: string)
    requires forall i | 0 <= i < |post| :: IsSpace(post[i])
    requires |t| >= 1 && !IsSpace(t[|t| - 1])
    ensures TrimRight(t + post) == t
    decreases |post|
  {
    if |post| == 0 {
      assert t + post == t;
    } else {
      var s := t + post;
      assert s[..|s| - 1] == t + post[..|post| - 1];
      StripRight(t, post[..|post| - 1]);
    }
  }

  /** Conversely, every string `int()` accepts is whitespace, an optional
      sign, whitespace after a sign, digits and whitespace, and reads as
      `ParseIntOfParts` says. */
  lemma ParseIntParts(s: string) returns (pre: string, sign: string, mid: string, ds: string, post: string)
    requires ParseInt(s).Ok?
    ensures s == pre + sign + mid + ds + post
    ensures forall i | 0 <= i < |pre| :: IsSpace(pre[i])
    ensures forall i | 0 <= i < |mid| :: IsSpace(mid[i])
    ensures forall i | 0 <= i < |post| :: IsSpace(post[i])
    ensures sign == "" || sign == "+" || sign == "-"
    ensures sign == "" ==> mid == ""
    ensures AllDigits(ds)
    ensures ParseInt(s).value == SignedValue(sign, ds)
  {
    var t;
    pre, t, post := Surrounding(s);
    sign, mid, ds := SignAndDigits(t);
    Regroup5(pre, sign, mid, ds, post);
    ParseIntOfParts(pre, sign, mid, ds, post);
  }

  /** A numeral is its sign, possibly empty, the whitespace after a sign,
      and its digits. */
  lemma SignAndDigits(t: string) returns (sign: string, mid: string, ds: string)
    requires Numeral(t)
    ensures t == sign + mid + ds
    ensures sign == "" || sign == "+" || sign == "-"
    ensures forall i | 0 <= i < |mid| :: IsSpace(mid[i])
    ensures sign == "" ==> mid == ""
    ensures AllDigits(ds)
  {
    if |t| > 0 && (t[0] == '+' || t[0] == '-') {
      var rest := t[1..];
      sign := [t[0]];
      mid := LeadingSpace(rest);
      ds := TrimLeft(rest);
      SplitAt(t, 1);
      Regroup3(sign, mid, ds);
    } else {
      sign, mid, ds := "", "", t;
      assert t == sign + mid + ds;
    }
  }

  /** A string is its leading whitespace, its stripped text and its
      trailing whitespace. */
  lemma Surrounding(s: string) returns (pre: string, t: string, post: string)
    ensures t == TrimRight(TrimLeft(s)) && s == pre + t + post
    ensures forall i | 0 <= i < |pre| :: IsSpace(pre[i])
    ensures forall i | 0 <= i < |post| :: IsSpace(post[i])
  {
    pre := LeadingSpace(s);
    post := TrailingSpace(TrimLeft(s));
    t := TrimRight(TrimLeft(s));
    Regroup3(pre, t, post);
  }

  lemma LeadingSpace(s: string) returns (pre: string)
    ensures s == pre + TrimLeft(s)
    ensures forall i | 0 <= i < |pre| :: IsSpace(pre[i])
  {
    pre := s[..|s| - |TrimLeft(s)|];
    SplitAt(s, |pre|);
  }

  lemma TrailingSpace(s: string) returns (post: string)
    ensures s == TrimRight(s) + post
    ensures forall i | 0 <= i < |post| :: IsSpace(post[i])
  {
    post := s[|TrimRight(s)|..];
    SplitAt(s, |TrimRight(s)|);
  }

  lemma SplitAt(s: string, k: nat)
    requires k <= |s|
    ensures s[..k] + s[k..] == s
  {
  }

  lemma Regroup3(a: string, b: string, c: string)
    ensures a + (b + c) == a + b + c
  {
  }

  // ---------------------------------------------------------------------
  // str.split(sep)

  function IndexOf(s: string, c: char): (i: nat)
    requires c in s
    ensures i < |s| && s[i] == c && c !in s[..i]
  {
    if s[0] == c then 0 else 1 + IndexOf(s[1..], c)
  }

  /** `s.split(sep)` for a one-character separator. */
  function Split(s: string, sep: char): (r: seq<string>)
    ensures |r| >= 1
    decreases |s|
  {
    if sep !in s then [s]
    else
      var i := IndexOf(s, sep);
      [s[..i]] + Split(s[i + 1..], sep)
  }

  /** `sep.join(parts)`. */
  function JoinWith(parts: seq<string>, sep: char): string
    decreases |parts|
  {
    if |parts| == 0 then ""
    else if |parts| == 1 then parts[0]
    else parts[0] + [sep] + JoinWith(parts[1..], sep)
  }

  /** Splitting cuts the string at every separator and nowhere else: the
      pieces hold no separator and joining them back gives the string. */
  lemma {:induction false} SplitJoin(s: string, sep: char)
    ensures JoinWith(Split(s, sep), sep) == s
    ensures forall k | 0 <= k < |Split(s, sep)| :: sep !in Split(s, sep)[k]
    decreases |s|
  {
    if sep in s {
      var i := IndexOf(s, sep);
      var rest := Split(s[i + 1..], sep);
      SplitJoin(s[i + 1..], sep);
      assert Split(s, sep) == [s[..i]] + rest;
      assert s == s[..i] + [sep] + s[i + 1..];
    }
  }
}
