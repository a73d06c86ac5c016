/** The string handling the store relies on: `key.split(".")`, `str()` of a
    value, the integer pattern `^-?\d+$` with `int()`, and
    `s.lower() == "true"`. */
module Text {

  import opened Values

  // ---------------------------------------------------------------------
  // Splitting a key on "."

  /** Python's `s.split(".")`: never empty; empty segments are kept. */
  function Split(s: string): (r: seq<string>)
    ensures |r| >= 1
    ensures forall i | 0 <= i < |r| :: '.' !in r[i]
    ensures Join(r) == s
  {
    if |s| == 0 then [""]
    else
      var t := Split(s[1..]);
      if s[0] == '.' then
        [""] + t
      else
        var r := [[s[0]] + t[0]] + t[1..];
        assert s == [s[0]] + s[1..];
        assert Join(r) == s by {
          if |t| > 1 {
            assert r[1..] == t[1..];
            assert Join(t) == t[0] + "." + Join(t[1..]);
          }
        }
        r
  }

  /** `".".join(segments)`. */
  function Join(segments: seq<string>): string
    requires |segments| >= 1
  {
    if |segments| == 1 then segments[0]
    else segments[0] + "." + Join(segments[1..])
  }

  lemma {:induction false} SplitNoDot(a: string)
    requires '.' !in a
    ensures Split(a) == [a]
    decreases |a|
  {
    if |a| > 0 {
      SplitNoDot(a[1..]);
      assert a == [a[0]] + a[1..];
    }
  }

  lemma {:induction false} SplitAfterSegment(a: string, b: string)
    requires '.' !in a
    ensures Split(a + "." + b) == [a] + Split(b)
    decreases |a|
  {
    if |a| == 0 {
      assert a + "." + b == "." + b;
      assert ("." + b)[1..] == b;
    } else {
      var s := a + "." + b;
      assert s[0] == a[0];
      assert s[1..] == a[1..] + "." + b;
      SplitAfterSegment(a[1..], b);
      assert a == [a[0]] + a[1..];
    }
  }

  /** Joining dot-free segments and splitting again gives them back. */
  lemma {:induction false} SplitJoin(segments: seq<string>)
    requires |segments| >= 1
    requires forall i | 0 <= i < |segments| :: '.' !in segments[i]
    ensures Split(Join(segments)) == segments
    decreases |segments|
  {
    if |segments| == 1 {
      SplitNoDot(segments[0]);
    } else {
      SplitJoin(segments[1..]);
      SplitAfterSegment(segments[0], Join(segments[1..]));
    }
  }

  // ---------------------------------------------------------------------
  // Decimal integers

  function DigitChar(d: nat): char
    requires d < 10
  {
    "0123456789"[d]
  }

  predicate IsDigit(c: char)
  {
    '0' <= c <= '9'
  }

  function DigitValue(c: char): nat
    requires IsDigit(c)
  {
    (c as int - '0' as int) as nat
  }

  /** `str(n)` for a natural number. */
  function NatText(n: nat): (r: string)
    ensures |r| >= 1 && forall i | 0 <= i < |r| :: IsDigit(r[i])
  {
    if n < 10 then [DigitChar(n)] else NatText(n / 10) + [DigitChar(n % 10)]
  }

  /** `str(i)` for an integer. */
  function IntText(i: int): string
  {
    if i < 0 then "-" + NatText(-i) else NatText(i)
  }

  predicate IsDigits(s: string)
  {
    |s| >= 1 && forall i | 0 <= i < |s| :: IsDigit(s[i])
  }

  function DigitsValue(s: string): nat
    requires IsDigits(s)
  {
    if |s| == 1 then DigitValue(s[0])
    else DigitsValue(s[..|s| - 1]) * 10 + DigitValue(s[|s| - 1])
  }

  /** The text before Python's `$` anchor: `$` also matches just before one
      final newline. */
  function BeforeFinalNewline(s: string): string
  {
    if |s| > 0 && s[|s| - 1] == '\n' then s[..|s| - 1] else s
  }

  predicate SignedDigits(s: string)
  {
    IsDigits(s) || (|s| >= 2 && s[0] == '-' && IsDigits(s[1..]))
  }

  /** `re.search(r"^-?\d+$", s)` succeeds. */
  predicate MatchesInt(s: string)
  {
    SignedDigits(BeforeFinalNewline(s))
  }

  /** `int(s)` for a string that matches the integer pattern (`int()` ignores
      the surrounding whitespace the anchor lets through). */
  function ParseInt(s: string): int
    requires MatchesInt(s)
  {
    var t := BeforeFinalNewline(s);
    if IsDigits(t) then DigitsValue(t) as int else -(DigitsValue(t[1..]) as int)
  }

  lemma {:induction false} NatTextRoundTrip(n: nat)
    ensures DigitsValue(NatText(n)) == n
  {
    if n >= 10 {
      NatTextRoundTrip(n / 10);
      var t := NatText(n);
      assert t[..|t| - 1] == NatText(n / 10);
    }
  }

  /** `int(str(i)) == i`, through the pattern check the getters make. */
  lemma IntTextRoundTrip(i: int)
    ensures MatchesInt(IntText(i))
    ensures ParseInt(IntText(i)) == i
  {
    var t := IntText(i);
    var digits := NatText(if i < 0 then -i else i);
    NatTextRoundTrip(if i < 0 then -i else i);
    assert IsDigits(digits);
    assert t[|t| - 1] == digits[|digits| - 1];
    assert BeforeFinalNewline(t) == t;
    if i < 0 {
      assert t[1..] == digits;
      assert !IsDigit(t[0]);
    }
  }

  // ---------------------------------------------------------------------
  // Booleans in text

  function AsciiLower(c: char): char
  {
    if 'A' <= c <= 'Z' then (c as int + 32) as char else c
  }

  /** `s.lower() == "true"`. */
  predicate IsTrueText(s: string)
  {
    |s| == 4 && AsciiLower(s[0]) == 't' && AsciiLower(s[1]) == 'r'
    && AsciiLower(s[2]) == 'u' && AsciiLower(s[3]) == 'e'
  }

  /** `str(b)` for a boolean. */
  function BoolText(b: bool): string
  {
    if b then "True" else "False"
  }

  lemma BoolTextReadsBack(b: bool)
    ensures IsTrueText(BoolText(b)) == b
    ensures !MatchesInt(BoolText(b))
  {
  }

  // ---------------------------------------------------------------------
  // str() of a value

  /** `str(v)`. Strings inside lists and mappings are shown between single
      quotes; mapping entries appear in an unspecified key order, since the
      insertion order Python keeps is not part of `Data`. */
  ghost function Repr(v: Value): string
    decreases v, 1, 0
  {
    match v
    case VNull => "None"
    case VStr(s) => s
    case VInt(i) => IntText(i)
    case VBool(b) => BoolText(b)
    case VList(_) => "[" + ReprItems(v, 0) + "]"
    case VMap(m) => "{" + ReprEntries(v, KeyOrder(m.Keys)) + "}"
  }

  /** `repr(v)` of an element: `str(v)`, quoted when it is a string. */
  ghost function Quoted(v: Value): string
    decreases v, 1, 1
  {
    if v.VStr? then "'" + v.s + "'" else Repr(v)
  }

  ghost function ReprItems(v: Value, i: nat): string
    requires v.VList? && i <= |v.items|
    decreases v, 0, |v.items| - i
  {
    if i == |v.items| then ""
    else (if i == 0 then "" else ", ") + Quoted(v.items[i]) + ReprItems(v, i + 1)
  }

  ghost function ReprEntries(v: Value, keys: seq<string>): string
    requires v.VMap? && forall i | 0 <= i < |keys| :: keys[i] in v.entries
    decreases v, 0, |keys|
  {
    if |keys| == 0 then ""
    else
      assert v.entries[keys[0]] in v.entries.Values;
      "'" + keys[0] + "': " + Quoted(v.entries[keys[0]])
      + (if |keys| == 1 then "" else ", ") + ReprEntries(v, keys[1..])
  }

  /** Some enumeration of a key set. */
  ghost function KeyOrder(keys: set<string>): (r: seq<string>)
    ensures forall i | 0 <= i < |r| :: r[i] in keys
  {
    if keys == {} then [] else var k :| k in keys; [k] + KeyOrder(keys - {k})
  }

  /** The default a typed getter passes on to the string getter: None stays
      None, anything else becomes its `str()` text. Both versions do this. */
  ghost function TextDefault(default: Value): Value
  {
    if default == VNull then VNull else VStr(Repr(default))
  }

  /** Which stored values pass the integer pattern once stringified, and what
      `int()` makes of them. */
  lemma ReprAsInt(v: Value)
    ensures v.VInt? ==> MatchesInt(Repr(v)) && ParseInt(Repr(v)) == v.i
    ensures v.VStr? ==> Repr(v) == v.s
    ensures !v.VInt? && !v.VStr? ==> !MatchesInt(Repr(v))
  {
    match v
    case VInt(i) => IntTextRoundTrip(i);
    case VBool(b) => BoolTextReadsBack(b);
    case VList(_) =>
      assert Repr(v)[0] == '[';
    case VMap(m) =>
      assert Repr(v)[0] == '{';
    case _ =>
  }

  /** Which stored values read as true once stringified and lowered. */
  lemma ReprAsBool(v: Value)
    ensures IsTrueText(Repr(v)) <==> v == VBool(true) || (v.VStr? && IsTrueText(v.s))
  {
    match v
    case VInt(i) =>
      if i < 0 {
      } else {
        assert IsDigit(Repr(v)[0]);
      }
    case VBool(b) => BoolTextReadsBack(b);
    case VList(_) =>
      assert Repr(v)[0] == '[';
    case VMap(m) =>
      assert Repr(v)[0] == '{';
    case _ =>
  }
}
