/**
 * The parts of Go's `strings` and `unicode` packages that the user entity relies on.
 * A Go string is a sequence of UTF-8 bytes; here it is the sequence of its runes
 * (`string` is `seq<char>`, each `char` a Unicode scalar value) and `len` is the
 * UTF-8 byte count `ByteLen`.
 */
module Text {

  /** Go's `unicode.IsSpace`: `\t`..`\r` and the space, then the White_Space runes from U+0085 up. */
  predicate IsSpace(c: char) {
    ('\t' <= c <= '\r') || c == ' ' || ('\U{85}' <= c && IsSpaceAbove(c))
  }

  /** The White_Space runes from U+0085 up. */
  predicate IsSpaceAbove(c: char) {
    || c == '\U{85}' || c == '\U{A0}' || c == '\U{1680}' || ('\U{2000}' <= c <= '\U{200A}')
    || c == '\U{2028}' || c == '\U{2029}' || c == '\U{202F}' || c == '\U{205F}' || c == '\U{3000}'
  }

  /** No leading and no trailing space. */
  predicate IsTrimmed(s: string) {
    s == [] || (!IsSpace(s[0]) && !IsSpace(s[|s| - 1]))
  }

  /** `s` without its leading spaces: it starts with a non-space. */
  function TrimLeft(s: string): (r: string)
    ensures |r| <= |s|
    ensures r == [] || !IsSpace(r[0])
  {
    if s != [] && IsSpace(s[0]) then TrimLeft(s[1..]) else s
  }

  /** `TrimLeft` keeps a suffix of `s` and drops only spaces. */
  lemma {:induction false} TrimLeftDropsSpaces(s: string)
    ensures TrimLeft(s) == s[|s| - |TrimLeft(s)|..]
    ensures forall i :: 0 <= i < |s| - |TrimLeft(s)| ==> IsSpace(s[i])
  {
    if s != [] && IsSpace(s[0]) {
      TrimLeftDropsSpaces(s[1..]);
    }
  }

  /** `s` without its trailing spaces: it ends with a non-space. */
  function TrimRight(s: string): (r: string)
    ensures |r| <= |s|
    ensures r == [] || !IsSpace(r[|r| - 1])
  {
    if s != [] && IsSpace(s[|s| - 1]) then TrimRight(s[..|s| - 1]) else s
  }

  /** `TrimRight` keeps a prefix of `s` and drops only spaces. */
  lemma {:induction false} TrimRightDropsSpaces(s: string)
    ensures TrimRight(s) == s[..|TrimRight(s)|]
    ensures forall i :: |TrimRight(s)| <= i < |s| ==> IsSpace(s[i])
  {
    if s != [] && IsSpace(s[|s| - 1]) {
      TrimRightDropsSpaces(s[..|s| - 1]);
    }
  }

  /** Go's `strings.TrimSpace`: drops the leading and the trailing spaces. */
  function TrimSpace(s: string): (r: string)
    ensures IsTrimmed(r)
    ensures |r| <= |s|
  {
    var left := TrimLeft(s);
    TrimRightDropsSpaces(left);
    TrimRight(left)
  }

  /**
   * `TrimSpace` keeps a contiguous run of `s` and drops only the spaces
   * before and after it.
   */
  lemma TrimSpaceDropsSpaces(s: string)
    ensures var lo, r := |s| - |TrimLeft(s)|, TrimSpace(s);
            && lo + |r| <= |s| && r == s[lo..lo + |r|]
            && (forall i :: 0 <= i < lo ==> IsSpace(s[i]))
            && (forall i :: lo + |r| <= i < |s| ==> IsSpace(s[i]))
  {
    var left := TrimLeft(s);
    TrimLeftDropsSpaces(s);
    TrimRightDropsSpaces(left);
  }

  /** Trimming a string that has no surrounding space gives it back. */
  lemma TrimSpaceOfTrimmed(s: string)
    requires IsTrimmed(s)
    ensures TrimSpace(s) == s
  {
    assert TrimLeft(s) == s;
    assert TrimRight(s) == s;
  }

  /** `TrimSpace` is idempotent. */
  lemma TrimSpaceIdempotent(s: string)
    ensures TrimSpace(TrimSpace(s)) == TrimSpace(s)
  {
    TrimSpaceOfTrimmed(TrimSpace(s));
  }

  /**
   * Go's `unicode.ToLower` on the runes this model folds: the ASCII capitals and
   * the Latin-1 capitals U+00C0..U+00DE except the multiplication sign U+00D7.
   */
  function LowerRune(c: char): char {
    if 'A' <= c <= 'Z' || ('\U{C0}' <= c <= '\U{DE}' && c != '\U{D7}') then
      (c as int + 32) as char
    else
      c
  }

  /** Go's `strings.ToLower`, rune by rune: as many runes, and no ASCII capital left. */
  function ToLower(s: string): (r: string)
    ensures |r| == |s|
    ensures forall i :: 0 <= i < |r| ==> !('A' <= r[i] <= 'Z')
  {
    seq(|s|, i requires 0 <= i < |s| => LowerRune(s[i]))
  }

  /** The number of bytes of a rune's UTF-8 encoding. */
  function RuneLen(c: char): nat {
    if c as int < 0x80 then 1
    else if c as int < 0x800 then 2
    else if c as int < 0x1_0000 then 3
    else 4
  }

  /** Go's `len` on a string: the length of its UTF-8 encoding, one to four bytes per rune. */
  function ByteLen(s: string): (n: nat)
    ensures |s| <= n <= 4 * |s|
  {
    if s == [] then 0 else RuneLen(s[0]) + ByteLen(s[1..])
  }

  /** On ASCII text the byte length is the rune count. */
  lemma {:induction false} AsciiByteLen(s: string)
    requires forall i :: 0 <= i < |s| ==> s[i] < '\U{80}'
    ensures ByteLen(s) == |s|
  {
    if s != [] {
      AsciiByteLen(s[1..]);
    }
  }

  /** Lower-casing keeps every rune's UTF-8 length, so it keeps the byte length. */
  lemma {:induction false} ToLowerKeepsByteLen(s: string)
    ensures ByteLen(ToLower(s)) == ByteLen(s)
  {
    if s != [] {
      assert ToLower(s)[1..] == ToLower(s[1..]);
      ToLowerKeepsByteLen(s[1..]);
    }
  }

  /** Lower-casing neither creates nor removes spaces, so trimmed strings stay trimmed. */
  lemma ToLowerKeepsTrimmed(s: string)
    requires IsTrimmed(s)
    ensures IsTrimmed(ToLower(s))
  {
  }

  /** Lower-casing maps a rune to `@` exactly when it is `@`. */
  lemma ToLowerKeepsAt(s: string)
    ensures '@' in ToLower(s) <==> '@' in s
  {
    if '@' in s {
      var i :| 0 <= i < |s| && s[i] == '@';
      assert ToLower(s)[i] == '@';
    }
    if '@' in ToLower(s) {
      var i :| 0 <= i < |s| && ToLower(s)[i] == '@';
      assert s[i] == '@';
    }
  }
}
