/** The slice of JavaScript's value model and string library the handlers
    rely on: request-body values and their truthiness, `parseInt` with
    radix 10, the decimal rendering of integers, `String.prototype.split`
    on one separator character, `Array.prototype.join` and `trim`. */
module Js {

  import opened Common

  /** A value decoded from a JSON request body. Numbers are finite (JSON has
      no NaN or Infinity); arrays are arrays of integer ids, the only arrays
      the handlers read. */
  datatype JsValue =
    | JUndefined
    | JNull
    | JBool(b: bool)
    | JNum(n: real)
    | JStr(s: string)
    | JArray(elems: seq<int>)
    | JObject

  /** JavaScript truthiness (`!!v`). */
  predicate Truthy(v: JsValue)
  {
    match v
    case JUndefined => false
    case JNull => false
    case JBool(b) => b
    case JNum(n) => n != 0.0
    case JStr(s) => s != ""
    case _ => true
  }

  /** `Number.isInteger` on a finite number. */
  predicate IsInteger(n: real)
  {
    n == n.Floor as real
  }

  /** The number `parseInt` yields: NaN or an integer. */
  datatype Num = NaN | Int(v: int)

  // ---------------------------------------------------------------------
  // Whitespace and trim
  // ---------------------------------------------------------------------

  /** The white-space characters `trim` and `parseInt` skip (the common
      ones of ECMAScript's WhiteSpace and LineTerminator classes). */
  predicate IsSpace(c: char)
  {
    c == ' ' || c == '\t' || c == '\n' || c == '\r' || c == '\U{000B}' || c == '\U{000C}'
    || c == '\U{00A0}' || c == '\U{2028}' || c == '\U{2029}' || c == '\U{FEFF}'
  }

  /** `s` with its leading white space removed. */
  function TrimStart(s: string): (r: string)
    ensures |r| <= |s| && r == s[|s| - |r|..]
    ensures r == [] || !IsSpace(r[0])
  {
    if |s| > 0 && IsSpace(s[0]) then TrimStart(s[1..]) else s
  }

  /** `s` with its trailing white space removed. */
  function TrimEnd(s: string): (r: string)
    ensures |r| <= |s| && r == s[..|r|]
    ensures r == [] || !IsSpace(r[|r| - 1])
  {
    if |s| > 0 && IsSpace(s[|s| - 1]) then TrimEnd(s[..|s| - 1]) else s
  }

  /** `String.prototype.trim`. */
  function Trim(s: string): string
  {
    TrimEnd(TrimStart(s))
  }

  predicate IsTrimmed(s: string)
  {
    s == [] || (!IsSpace(s[0]) && !IsSpace(s[|s| - 1]))
  }

  predicate IsBlank(s: string)
  {
    forall k :: 0 <= k < |s| ==> IsSpace(s[k])
  }

  /** The trimmed string is a contiguous piece of the input with no white
      space at either end, only white space was cut off, it is empty exactly
      when the input is blank, and trimming again changes nothing. */
  lemma TrimProperties(s: string)
    ensures IsTrimmed(Trim(s))
    ensures exists i, j :: 0 <= i <= j <= |s| && Trim(s) == s[i..j] && IsBlank(s[..i]) && IsBlank(s[j..])
    ensures Trim(s) == [] <==> IsBlank(s)
    ensures Trim(Trim(s)) == Trim(s)
  {
    var i, j := TrimSlice(s);
    TrimBlank(s, i, j);
    TrimTwice(Trim(s));
  }

  /** No white space is left at either end. */
  lemma TrimIsTrimmed(s: string)
    ensures IsTrimmed(Trim(s))
  {
    var t := TrimStart(s);
    if Trim(s) != [] {
      assert Trim(s)[0] == t[0];
    }
  }

  /** Where the trimmed string sits in the input. */
  lemma TrimSlice(s: string) returns (i: nat, j: nat)
    ensures i <= j <= |s| && Trim(s) == s[i..j] && IsBlank(s[..i]) && IsBlank(s[j..])
    ensures IsTrimmed(Trim(s))
  {
    var t := TrimStart(s);
    var r := TrimEnd(t);
    i := |s| - |t|;
    j := i + |r|;
    TrimStartCut(s);
    TrimEndCut(t);
    assert r == s[i..j] by {
      assert t == s[i..];
      assert r == t[..|r|];
    }
    assert s[j..] == t[|r|..];
  }

  /** What `TrimStart` cuts off is blank. */
  lemma {:induction false} TrimStartCut(s: string)
    ensures IsBlank(s[..|s| - |TrimStart(s)|])
  {
    if |s| > 0 && IsSpace(s[0]) {
      TrimStartCut(s[1..]);
      var i := |s| - |TrimStart(s)|;
      forall k | 0 <= k < i ensures IsSpace(s[..i][k]) {
        if k > 0 {
          assert s[..i][k] == s[1..][..i - 1][k - 1];
        }
      }
    }
  }

  /** What `TrimEnd` cuts off is blank. */
  lemma {:induction false} TrimEndCut(t: string)
    ensures IsBlank(t[|TrimEnd(t)|..])
  {
    if |t| > 0 && IsSpace(t[|t| - 1]) {
      var u := t[..|t| - 1];
      TrimEndCut(u);
      var n := |TrimEnd(t)|;
      forall k | 0 <= k < |t| - n ensures IsSpace(t[n..][k]) {
        if n + k < |t| - 1 {
          assert t[n..][k] == u[n..][k];
        }
      }
    }
  }

  lemma TrimBlank(s: string, i: nat, j: nat)
    requires i <= j <= |s| && Trim(s) == s[i..j] && IsBlank(s[..i]) && IsBlank(s[j..])
    requires IsTrimmed(Trim(s))
    ensures Trim(s) == [] <==> IsBlank(s)
  {
    if Trim(s) == [] {
      assert i == j;
      forall k | 0 <= k < |s| ensures IsSpace(s[k]) {
        if k < i {
          assert s[..i][k] == s[k];
        } else {
          assert s[j..][k - j] == s[k];
        }
      }
    }
  }

  /** Trimming a string with no white space at either end keeps it. */
  lemma TrimTwice(s: string)
    requires IsTrimmed(s)
    ensures Trim(s) == s
  {
    assert TrimStart(s) == s;
    assert TrimEnd(s) == s;
  }

  // ---------------------------------------------------------------------
  // Decimal digits
  // ---------------------------------------------------------------------

  predicate IsDigit(c: char)
  {
    '0' <= c <= '9'
  }

  predicate AllDigits(s: string)
  {
    forall k :: 0 <= k < |s| ==> IsDigit(s[k])
  }

  function DigitValue(c: char): (d: nat)
    requires IsDigit(c)
    ensures d < 10
  {
    (c as int) - ('0' as int)
  }

  function DigitChar(d: nat): (c: char)
    requires d < 10
    ensures IsDigit(c) && DigitValue(c) == d
  {
    ('0' as int + d) as char
  }

  /** The number a string of decimal digits denotes. */
  function DigitsValue(ds: string): nat
    requires AllDigits(ds)
  {
    if ds == [] then 0 else DigitsValue(ds[..|ds| - 1]) * 10 + DigitValue(ds[|ds| - 1])
  }

  /** The decimal rendering of a natural number, as `String(n)` gives it. */
  function NatToString(n: nat): (s: string)
    ensures |s| > 0 && AllDigits(s)
  {
    if n < 10 then [DigitChar(n)] else NatToString(n / 10) + [DigitChar(n % 10)]
  }

  /** The decimal rendering of an integer, as `String(i)` gives it. */
  function IntToString(i: int): (s: string)
    ensures |s| > 0
  {
    if i < 0 then "-" + NatToString(-i) else NatToString(i)
  }

  /** Reading the rendering back gives the number. */
  lemma {:induction false} NatToStringValue(n: nat)
    ensures DigitsValue(NatToString(n)) == n
  {
    if n >= 10 {
      NatToStringValue(n / 10);
      var s := NatToString(n);
      assert s[..|s| - 1] == NatToString(n / 10);
    }
  }

  /** The length of the longest prefix of `s` made of decimal digits. */
  function DigitPrefixLength(s: string): (k: nat)
    ensures k <= |s| && AllDigits(s[..k])
    ensures k < |s| ==> !IsDigit(s[k])
  {
    if |s| > 0 && IsDigit(s[0]) then
      var k := 1 + DigitPrefixLength(s[1..]);
      assert forall j :: 1 <= j < k ==> s[..k][j] == s[1..][..k - 1][j - 1];
      k
    else 0
  }

  /** The decimal number the digits at the start of `u` spell; NaN when
      `u` does not start with a digit. */
  function ParseDigits(u: string): (r: Num)
  {
    var k := DigitPrefixLength(u);
    if k == 0 then NaN else Int(DigitsValue(u[..k]))
  }

  function Negate(n: Num): Num
  {
    match n
    case NaN => NaN
    case Int(v) => Int(-v)
  }

  /** `parseInt(s, 10)`: skip leading white space, read an optional sign and
      the longest run of decimal digits after it; NaN when there is none. */
  function ParseInt(s: string): (r: Num)
  {
    var t := TrimStart(s);
    if |t| > 0 && t[0] == '-' then Negate(ParseDigits(t[1..]))
    else if |t| > 0 && t[0] == '+' then ParseDigits(t[1..])
    else ParseDigits(t)
  }

  /** `parseInt` of a query parameter; an absent parameter is `undefined`,
      which `parseInt` turns into NaN. */
  function ParseParam(p: Option<string>): (r: Num)
    ensures p.None? ==> r.NaN?
  {
    match p
    case None => NaN
    case Some(s) => ParseInt(s)
  }

  /** `parseInt` reads back every integer rendered by `String`. */
  lemma ParseIntOfIntToString(i: int)
    ensures ParseInt(IntToString(i)) == Int(i)
  {
    var n: nat := if i < 0 then -i else i;
    NatToStringValue(n);
    if i < 0 {
      ParseIntOfNegativeDigits(NatToString(n));
    } else {
      ParseIntOfDigits(NatToString(n));
    }
  }

  lemma ParseIntOfDigits(ds: string)
    requires |ds| > 0 && AllDigits(ds)
    ensures ParseInt(ds) == Int(DigitsValue(ds))
  {
    ParseDigitsOfDigits(ds);
    assert !IsSpace(ds[0]) && ds[0] != '-' && ds[0] != '+';
    assert TrimStart(ds) == ds;
  }

  lemma ParseIntOfNegativeDigits(ds: string)
    requires |ds| > 0 && AllDigits(ds)
    ensures ParseInt("-" + ds) == Int(-(DigitsValue(ds) as int))
  {
    var s := "-" + ds;
    assert s[0] == '-' && !IsSpace(s[0]);
    assert TrimStart(s) == s;
    assert s[1..] == ds;
    assert ParseInt(s) == Negate(ParseDigits(ds));
    ParseDigitsOfDigits(ds);
  }

  lemma ParseDigitsOfDigits(ds: string)
    requires |ds| > 0 && AllDigits(ds)
    ensures ParseDigits(ds) == Int(DigitsValue(ds))
  {
    DigitPrefixOfDigits(ds);
    assert ds[..|ds|] == ds;
  }

  lemma {:induction false} DigitPrefixOfDigits(ds: string)
    requires AllDigits(ds)
    ensures DigitPrefixLength(ds) == |ds|
  {
    if |ds| > 0 {
      DigitPrefixOfDigits(ds[1..]);
    }
  }

  // ---------------------------------------------------------------------
  // split and join
  // ---------------------------------------------------------------------

  /** `xs.map(f)`. */
  function Map<A, B>(f: A -> B, xs: seq<A>): (ys: seq<B>)
    ensures |ys| == |xs| && forall k :: 0 <= k < |xs| ==> ys[k] == f(xs[k])
  {
    seq(|xs|, k requires 0 <= k < |xs| => f(xs[k]))
  }

  /** Mapping a concatenation maps each part. */
  lemma MapAppend<A, B>(f: A -> B, a: seq<A>, b: seq<A>)
    ensures Map(f, a + b) == Map(f, a) + Map(f, b)
  {
    forall k | 0 <= k < |a + b| ensures Map(f, a + b)[k] == (Map(f, a) + Map(f, b))[k] {
      if k < |a| {
        assert (a + b)[k] == a[k];
      } else {
        assert (a + b)[k] == b[k - |a|];
      }
    }
  }

  /** `s.split(sep)` for a one-character separator: the pieces between the
      separators, empty pieces included; the empty string gives `[""]`. */
  function Split(s: string, sep: char): (parts: seq<string>)
    ensures |parts| >= 1
    ensures forall k :: 0 <= k < |parts| ==> sep !in parts[k]
    decreases |s|
  {
    if |s| == 0 then [""]
    else if s[0] == sep then [""] + Split(s[1..], sep)
    else
      var rest := Split(s[1..], sep);
      [[s[0]] + rest[0]] + rest[1..]
  }

  /** `parts.join(sep)`. */
  function Join(parts: seq<string>, sep: string): string
  {
    if |parts| == 0 then ""
    else if |parts| == 1 then parts[0]
    else parts[0] + sep + Join(parts[1..], sep)
  }

  /** Joining the pieces of a split gives back the string. */
  lemma {:induction false} JoinSplit(s: string, sep: char)
    ensures Join(Split(s, sep), [sep]) == s
    decreases |s|
  {
    if |s| == 0 {
    } else if s[0] == sep {
      JoinSplit(s[1..], sep);
      assert s == "" + [sep] + s[1..];
    } else {
      JoinSplit(s[1..], sep);
      var rest := Split(s[1..], sep);
      if |rest| == 1 {
        assert s == [s[0]] + rest[0];
      } else {
        assert Join(rest, [sep]) == rest[0] + [sep] + Join(rest[1..], [sep]);
        assert ([[s[0]] + rest[0]] + rest[1..])[1..] == rest[1..];
        assert s == [s[0]] + s[1..];
      }
    }
  }

  /** Splitting a join of pieces free of the separator gives back the pieces. */
  lemma {:induction false} SplitJoin(parts: seq<string>, sep: char)
    requires |parts| > 0
    requires forall k :: 0 <= k < |parts| ==> sep !in parts[k]
    ensures Split(Join(parts, [sep]), sep) == parts
  {
    if |parts| == 1 {
      SplitPiece(parts[0], sep);
    } else {
      SplitJoin(parts[1..], sep);
      SplitAfterPiece(parts[0], Join(parts[1..], [sep]), sep);
      assert Join(parts, [sep]) == parts[0] + ([sep] + Join(parts[1..], [sep]));
      assert [parts[0]] + parts[1..] == parts;
    }
  }

  lemma {:induction false} SplitPiece(w: string, sep: char)
    requires sep !in w
    ensures Split(w, sep) == [w]
    decreases |w|
  {
    if |w| > 0 {
      SplitPiece(w[1..], sep);
      assert w == [w[0]] + w[1..];
    }
  }

  lemma {:induction false} SplitAfterPiece(w: string, t: string, sep: char)
    requires sep !in w
    ensures Split(w + ([sep] + t), sep) == [w] + Split(t, sep)
    decreases |w|
  {
    if |w| == 0 {
      assert w + ([sep] + t) == [sep] + t;
      assert ([sep] + t)[1..] == t;
    } else {
      SplitAfterPiece(w[1..], t, sep);
      var s := w + ([sep] + t);
      assert s[0] == w[0];
      assert s[1..] == w[1..] + ([sep] + t);
      assert w == [w[0]] + w[1..];
    }
  }
}
