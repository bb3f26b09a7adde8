/**
 * The JavaScript string built-ins the extension relies on, as functions on
 * `string` (a sequence of UTF-16-free `char`s): `trim`, `toLowerCase` (ASCII
 * letters), `split` on a set of separator characters, `join`, `indexOf`,
 * `endsWith`, `replace` with a string pattern, and decimal rendering and
 * parsing of numbers (template literals and `Number`).
 */
module Text {
  import opened Wrappers

  // ---------------------------------------------------------------- trim

  /** The code points `String.prototype.trim` removes: WhiteSpace and LineTerminator. */
  predicate IsSpace(c: char) {
    c == '\t' || c == '\n' || c == '\U{000B}' || c == '\U{000C}' || c == '\r' || c == ' '
    || c == '\U{00A0}' || c == '\U{1680}' || ('\U{2000}' <= c <= '\U{200A}')
    || c == '\U{2028}' || c == '\U{2029}' || c == '\U{202F}' || c == '\U{205F}'
    || c == '\U{3000}' || c == '\U{FEFF}'
  }

  predicate IsTrimmed(s: string) {
    s == [] || (!IsSpace(s[0]) && !IsSpace(s[|s| - 1]))
  }

  /** Drops the leading white space: the result is the longest suffix that does not start with white space. */
  function TrimStart(s: string): (r: string)
    ensures |r| <= |s| && r == s[|s| - |r|..]
    ensures r == [] || !IsSpace(r[0])
  {
    if s != [] && IsSpace(s[0]) then TrimStart(s[1..]) else s
  }

  /** What `TrimStart` drops is white space only. */
  lemma {:induction false} TrimStartDropsSpace(s: string)
    ensures forall i :: 0 <= i < |s| - |TrimStart(s)| ==> IsSpace(s[i])
  {
    if s != [] && IsSpace(s[0]) {
      TrimStartDropsSpace(s[1..]);
    }
  }

  /** Drops the trailing white space: the result is the longest prefix that does not end with white space. */
  function TrimEnd(s: string): (r: string)
    ensures |r| <= |s| && r == s[..|r|]
    ensures r == [] || !IsSpace(r[|r| - 1])
  {
    if s != [] && IsSpace(s[|s| - 1]) then TrimEnd(s[..|s| - 1]) else s
  }

  /** What `TrimEnd` drops is white space only. */
  lemma {:induction false} TrimEndDropsSpace(s: string)
    ensures forall i :: |TrimEnd(s)| <= i < |s| ==> IsSpace(s[i])
  {
    if s != [] && IsSpace(s[|s| - 1]) {
      TrimEndDropsSpace(s[..|s| - 1]);
    }
  }

  /** `s.trim()`. */
  function Trim(s: string): (r: string)
    ensures IsTrimmed(r)
    ensures IsTrimmed(s) ==> r == s
    ensures |r| <= |s|
  {
    TrimIsTrimmed(s);
    TrimOfTrimmed(s);
    TrimEnd(TrimStart(s))
  }

  lemma TrimIsTrimmed(s: string)
    ensures IsTrimmed(TrimEnd(TrimStart(s)))
  {
    var a := TrimStart(s);
    var r := TrimEnd(a);
    if r != [] {
      assert r[0] == a[0];
    }
  }

  lemma TrimOfTrimmed(s: string)
    ensures IsTrimmed(s) ==> TrimEnd(TrimStart(s)) == s
  {
    if IsTrimmed(s) && s != [] {
      assert TrimStart(s) == s;
    }
  }

  /** `trim` only removes characters, so a string free of the separators stays free of them. */
  lemma TrimNoSep(s: string, seps: set<char>)
    requires NoSep(s, seps)
    ensures NoSep(Trim(s), seps)
  {
    var a := TrimStart(s);
    var r := TrimEnd(a);
    assert Trim(s) == r;
    var k := |s| - |a|;
    assert NoSep(a, seps) by {
      forall i | 0 <= i < |a|
        ensures a[i] !in seps
      {
        assert a[i] == s[k + i];
      }
    }
    forall i | 0 <= i < |r|
      ensures r[i] !in seps
    {
      assert r[i] == a[i];
    }
  }

  /** A space in front of a trimmed word is what `trim` removes again (the `", "` joiner relies on it). */
  lemma TrimAfterSpace(k: string)
    requires IsTrimmed(k)
    ensures Trim([' '] + k) == k
  {
    var t := [' '] + k;
    assert t[1..] == k;
    assert TrimStart(t) == TrimStart(k);
    assert TrimStart(k) == k;
    assert TrimEnd(k) == k;
  }

  // --------------------------------------------------------- toLowerCase

  function LowerChar(c: char): char {
    if 'A' <= c <= 'Z' then (c as int + 32) as char else c
  }

  predicate NoUpper(s: string) {
    forall i :: 0 <= i < |s| ==> !('A' <= s[i] <= 'Z')
  }

  /** `s.toLowerCase()` on ASCII letters; every other character is kept. */
  function ToLower(s: string): (r: string)
    ensures |r| == |s|
    ensures forall i :: 0 <= i < |s| ==> r[i] == LowerChar(s[i])
  {
    if s == [] then [] else [LowerChar(s[0])] + ToLower(s[1..])
  }

  /** A lower-cased string has no upper-case letter. */
  lemma ToLowerNoUpper(s: string)
    ensures NoUpper(ToLower(s))
  {
  }

  /** Lower-casing a string without upper-case letters changes nothing. */
  lemma ToLowerOfLower(s: string)
    requires NoUpper(s)
    ensures ToLower(s) == s
  {
  }

  /** Lower-casing only changes letters, so it keeps a string free of the separators. */
  lemma ToLowerNoSep(s: string, seps: set<char>)
    requires NoSep(s, seps) && forall c :: 'a' <= c <= 'z' ==> c !in seps
    ensures NoSep(ToLower(s), seps)
  {
  }

  /** Lower-casing keeps white space where it was, so it keeps a trimmed string trimmed. */
  lemma ToLowerKeepsTrimmed(s: string)
    requires IsTrimmed(s)
    ensures IsTrimmed(ToLower(s))
  {
  }

  // --------------------------------------------------------- split / join

  predicate NoSep(p: string, seps: set<char>) {
    forall i :: 0 <= i < |p| ==> p[i] !in seps
  }

  /**
   * `s.split(/[...]/)` with a one-character class: the pieces between
   * separators, always at least one (the empty string splits into `[""]`).
   */
  function Split(s: string, seps: set<char>): (parts: seq<string>)
    ensures |parts| >= 1
    ensures forall j :: 0 <= j < |parts| ==> NoSep(parts[j], seps)
  {
    if s == [] then [[]]
    else
      var rest := Split(s[1..], seps);
      if s[0] in seps then [[]] + rest
      else [[s[0]] + rest[0]] + rest[1..]
  }

  /** `parts.join(sep)`: the empty list joins into the empty string. */
  function Join(parts: seq<string>, sep: string): string {
    if parts == [] then []
    else if |parts| == 1 then parts[0]
    else parts[0] + sep + Join(parts[1..], sep)
  }

  lemma {:induction false} SplitNoSep(p: string, seps: set<char>)
    requires NoSep(p, seps)
    ensures Split(p, seps) == [p]
  {
    if p != [] {
      SplitNoSep(p[1..], seps);
      assert [p[0]] + p[1..] == p;
    }
  }

  lemma {:induction false} SplitAfterPiece(p: string, c: char, t: string, seps: set<char>)
    requires NoSep(p, seps) && c in seps
    ensures Split(p + [c] + t, seps) == [p] + Split(t, seps)
  {
    if p == [] {
      assert ([c] + t)[1..] == t;
    } else {
      assert (p + [c] + t)[1..] == p[1..] + [c] + t;
      SplitAfterPiece(p[1..], c, t, seps);
      assert [p[0]] + p[1..] == p;
    }
  }

  /** Joining separator-free pieces with one separator character and splitting again gives the pieces back. */
  lemma {:induction false} SplitJoin(parts: seq<string>, c: char, seps: set<char>)
    requires |parts| >= 1 && c in seps
    requires forall j :: 0 <= j < |parts| ==> NoSep(parts[j], seps)
    ensures Split(Join(parts, [c]), seps) == parts
  {
    if |parts| == 1 {
      SplitNoSep(parts[0], seps);
    } else {
      SplitJoin(parts[1..], c, seps);
      SplitAfterPiece(parts[0], c, Join(parts[1..], [c]), seps);
    }
  }

  /** Splitting on a single separator character and joining with it gives the string back. */
  lemma {:induction false} JoinSplit(s: string, c: char)
    ensures Join(Split(s, {c}), [c]) == s
  {
    if s != [] {
      JoinSplit(s[1..], c);
      var rest := Split(s[1..], {c});
      if s[0] != c {
        if |rest| > 1 {
          assert Join([[s[0]] + rest[0]] + rest[1..], [c])
              == [s[0]] + rest[0] + [c] + Join(rest[1..], [c]);
        }
      }
    }
  }

  // --------------------------------------------------------------- search

  predicate OccursAt(s: string, pat: string, i: nat) {
    i + |pat| <= |s| && s[i..i + |pat|] == pat
  }

  predicate Occurs(s: string, pat: string) {
    exists i: nat :: i <= |s| && OccursAt(s, pat, i)
  }

  function IndexFrom(s: string, pat: string, from: nat): (r: Option<nat>)
    ensures r.Some? ==> from <= r.value && OccursAt(s, pat, r.value)
    ensures r.Some? ==> forall j: nat :: from <= j < r.value ==> !OccursAt(s, pat, j)
    ensures r.None? ==> forall j: nat :: from <= j ==> !OccursAt(s, pat, j)
    decreases |s| - from
  {
    if from + |pat| > |s| then None
    else if s[from..from + |pat|] == pat then Some(from)
    else IndexFrom(s, pat, from + 1)
  }

  /** `s.indexOf(pat)`: the first position where `pat` occurs, or none. */
  function IndexOf(s: string, pat: string): (r: Option<nat>)
    ensures r.Some? ==> OccursAt(s, pat, r.value)
    ensures r.Some? ==> forall j: nat :: j < r.value ==> !OccursAt(s, pat, j)
    ensures r.None? <==> !Occurs(s, pat)
  {
    IndexFrom(s, pat, 0)
  }

  /**
   * `s.replace(pat, rep)` with a string pattern: the first occurrence of `pat`
   * is replaced by `rep`; without an occurrence `s` is returned unchanged.
   * (`rep` is taken literally: `$` substitution patterns are not modelled.)
   */
  function ReplaceFirst(s: string, pat: string, rep: string): string {
    ReplaceFrom(s, pat, rep, 0)
  }

  /** The scan behind `ReplaceFirst`, from position `from` on. */
  function ReplaceFrom(s: string, pat: string, rep: string, from: nat): string
    decreases |s| - from
  {
    if from + |pat| > |s| then s
    else if s[from..from + |pat|] == pat then s[..from] + rep + s[from + |pat|..]
    else ReplaceFrom(s, pat, rep, from + 1)
  }

  lemma {:induction false} ReplaceFromIndex(s: string, pat: string, rep: string, from: nat)
    ensures ReplaceFrom(s, pat, rep, from) == match IndexFrom(s, pat, from)
                                              case None => s
                                              case Some(i) => s[..i] + rep + s[i + |pat|..]
    decreases |s| - from
  {
    if from + |pat| <= |s| && s[from..from + |pat|] != pat {
      ReplaceFromIndex(s, pat, rep, from + 1);
    }
  }

  /** `ReplaceFirst` replaces the occurrence `IndexOf` finds, and changes nothing when there is none. */
  lemma ReplaceFirstIndex(s: string, pat: string, rep: string)
    ensures ReplaceFirst(s, pat, rep) == match IndexOf(s, pat)
                                         case None => s
                                         case Some(i) => s[..i] + rep + s[i + |pat|..]
  {
    ReplaceFromIndex(s, pat, rep, 0);
  }

  /**
   * The splice the extension performs with `s.replace(d, c + d)`: `c` is put
   * immediately before the first occurrence of `d`, `d` itself stays where it
   * was (shifted by `|c|`), and deleting `c` again gives back `s`.
   */
  lemma InsertBeforeFirst(s: string, d: string, c: string)
    requires Occurs(s, d)
    ensures var i := IndexOf(s, d).value;
            var r := ReplaceFirst(s, d, c + d);
            && |r| == |s| + |c|
            && r == s[..i] + c + s[i..]
            && r[i..i + |c|] == c
            && OccursAt(r, d, i + |c|)
            && r[..i] + r[i + |c|..] == s
  {
    var i := IndexOf(s, d).value;
    var r := ReplaceFirst(s, d, c + d);
    ReplaceFirstIndex(s, d, c + d);
    assert s[i..i + |d|] == d;
    assert s[..i] + d + s[i + |d|..] == s[..i] + s[i..];
    assert r == s[..i] + c + s[i..];
    assert r[i + |c|..] == s[i..];
    assert r[i + |c|..i + |c| + |d|] == s[i..i + |d|];
  }

  /** `s.endsWith(suffix)`. */
  predicate EndsWith(s: string, suffix: string) {
    |suffix| <= |s| && s[|s| - |suffix|..] == suffix
  }

  // ------------------------------------------------------------- numbers

  predicate IsDigit(c: char) { '0' <= c <= '9' }

  predicate AllDigits(s: string) {
    forall i :: 0 <= i < |s| ==> IsDigit(s[i])
  }

  function DigitChar(d: nat): (c: char)
    requires d < 10
    ensures IsDigit(c)
  {
    ('0' as int + d) as char
  }

  /** The decimal digits of a natural number, as a template literal renders it. */
  function NatToString(n: nat): (r: string)
    ensures |r| >= 1 && AllDigits(r)
  {
    if n < 10 then [DigitChar(n)] else NatToString(n / 10) + [DigitChar(n % 10)]
  }

  /** An integer as a template literal renders it. */
  function IntToString(n: int): string {
    if n < 0 then "-" + NatToString(-n) else NatToString(n)
  }

  /** The value of a string of decimal digits (`""` has value 0). */
  function ParseDigits(s: string): nat
    requires AllDigits(s)
  {
    if s == [] then 0 else 10 * ParseDigits(s[..|s| - 1]) + (s[|s| - 1] as int - '0' as int)
  }

  /** Rendering a natural number and parsing the digits back gives the number. */
  lemma {:induction false} ParseNatToString(n: nat)
    ensures ParseDigits(NatToString(n)) == n
  {
    if n >= 10 {
      ParseNatToString(n / 10);
      var s := NatToString(n);
      assert s[..|s| - 1] == NatToString(n / 10);
    }
  }

  /**
   * `Number(s)` on the inputs the model admits: white space around a string of
   * decimal digits (the empty string is 0); anything else (a sign, a decimal
   * point, an exponent, a hexadecimal prefix, NaN) is `None`.
   */
  function ParseNumber(s: string): (r: Option<nat>)
    ensures r.Some? ==> AllDigits(Trim(s)) && r.value == ParseDigits(Trim(s))
    ensures AllDigits(Trim(s)) ==> r.Some?
  {
    var t := Trim(s);
    if AllDigits(t) then Some(ParseDigits(t)) else None
  }

  /** `Number` reads back what a template literal renders for a natural number. */
  lemma ParseNumberNatToString(n: nat)
    ensures ParseNumber(NatToString(n)) == Some(n)
  {
    var s := NatToString(n);
    assert IsTrimmed(s);
    ParseNatToString(n);
  }
}
