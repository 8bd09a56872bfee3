/**
 * The parts of Go's `strings` package and of Go's string representation that
 * the validation rules rely on: upper-casing (ASCII letters only) and `len`,
 * which counts the bytes of the UTF-8 encoding rather than the characters.
 */
module GoStrings {

  predicate IsLowerAscii(c: char) {
    'a' <= c <= 'z'
  }

  predicate IsAscii(c: char) {
    c as int < 0x80
  }

  /** The upper-case form of one character: 'a'..'z' map to 'A'..'Z', everything else is kept. */
  function UpperChar(c: char): (u: char)
    ensures !IsLowerAscii(u)
  {
    if IsLowerAscii(c) then (c as int - 32) as char else c
  }

  /** strings.ToUpper, restricted to ASCII case mapping. */
  function ToUpper(s: string): string
  {
    if s == [] then [] else [UpperChar(s[0])] + ToUpper(s[1..])
  }

  /** ToUpper maps the string character by character. */
  lemma {:induction false} ToUpperAt(s: string)
    ensures |ToUpper(s)| == |s|
    ensures forall i | 0 <= i < |s| :: ToUpper(s)[i] == UpperChar(s[i])
  {
    if s != [] {
      ToUpperAt(s[1..]);
      assert ToUpper(s) == [UpperChar(s[0])] + ToUpper(s[1..]);
    }
  }

  /** A string is its own upper-case form exactly when it holds no lower-case ASCII letter. */
  lemma {:induction false} ToUpperFixedIff(s: string)
    ensures ToUpper(s) == s <==> forall i | 0 <= i < |s| :: !IsLowerAscii(s[i])
  {
    ToUpperAt(s);
    if forall i | 0 <= i < |s| :: !IsLowerAscii(s[i]) {
      assert forall i | 0 <= i < |s| :: ToUpper(s)[i] == s[i];
    }
  }

  /** Upper-casing twice is upper-casing once. */
  lemma {:induction false} ToUpperIdempotent(s: string)
    ensures ToUpper(ToUpper(s)) == ToUpper(s)
  {
    ToUpperAt(s);
    ToUpperFixedIff(ToUpper(s));
  }

  /** Two strings have the same upper-case form exactly when they agree character by character up to ASCII case. */
  lemma ToUpperEqualIff(s: string, t: string)
    ensures ToUpper(s) == ToUpper(t) <==>
            |s| == |t| && forall i | 0 <= i < |s| :: UpperChar(s[i]) == UpperChar(t[i])
  {
    ToUpperAt(s);
    ToUpperAt(t);
    if ToUpper(s) == ToUpper(t) {
      forall i | 0 <= i < |s| ensures UpperChar(s[i]) == UpperChar(t[i]) {
        assert ToUpper(s)[i] == ToUpper(t)[i];
      }
    }
  }

  /** The number of bytes UTF-8 uses for one character. */
  function RuneLen(c: char): (n: nat)
    ensures 1 <= n <= 4
    ensures n == 1 <==> IsAscii(c)
  {
    if c as int < 0x80 then 1
    else if c as int < 0x800 then 2
    else if c as int < 0x1_0000 then 3
    else 4
  }

  /** Go's `len` of a string: the length of its UTF-8 encoding in bytes. */
  function Utf8Len(s: string): nat
  {
    if s == [] then 0 else RuneLen(s[0]) + Utf8Len(s[1..])
  }

  /** The byte length is between one and four bytes per character, and equals the character count for ASCII text. */
  lemma {:induction false} Utf8LenBounds(s: string)
    ensures |s| <= Utf8Len(s) <= 4 * |s|
    ensures Utf8Len(s) == |s| <==> forall i | 0 <= i < |s| :: IsAscii(s[i])
  {
    if s != [] {
      Utf8LenBounds(s[1..]);
      if forall i | 0 <= i < |s[1..]| :: IsAscii(s[1..][i]) {
        assert IsAscii(s[0]) ==> forall i | 0 <= i < |s| :: IsAscii(s[i]) by {
          forall i | 1 <= i < |s| ensures IsAscii(s[i]) { assert s[i] == s[1..][i - 1]; }
        }
      } else {
        var j :| 0 <= j < |s[1..]| && !IsAscii(s[1..][j]);
        assert !IsAscii(s[j + 1]);
      }
    }
  }
}
