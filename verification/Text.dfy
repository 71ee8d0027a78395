/** Strings as the spec language sees them: a Go string is the sequence of its
    bytes, one `char` per byte.  Whitespace trimming follows `strings.TrimSpace`,
    so the multi-byte encodings of the Unicode spaces count as whitespace too. */
module Text {

  datatype Option<+T> = None | Some(value: T)

  datatype Result<+T> = Ok(value: T) | Err

  // ---------------------------------------------------------------- searching

  /** The first position of `c` in `s`, or -1. */
  function IndexOf(s: string, c: char): (i: int)
    ensures -1 <= i < |s|
    ensures i >= 0 ==> s[i] == c && c !in s[..i]
    ensures i < 0 ==> c !in s
  {
    if s == [] then -1
    else if s[0] == c then 0
    else
      var k := IndexOf(s[1..], c);
      if k < 0 then -1 else assert s[..k + 1] == [s[0]] + s[1..][..k]; k + 1
  }

  /** What precedes and what follows the first `c`; everything and nothing when there is none. */
  function Cut(s: string, c: char): (string, string) {
    var i := IndexOf(s, c);
    if i < 0 then (s, "") else (s[..i], s[i + 1..])
  }

  lemma IndexOfFirst(a: string, c: char, b: string)
    requires c !in a
    ensures IndexOf(a + [c] + b, c) == |a|
    ensures Cut(a + [c] + b, c) == (a, b)
  {
    var s := a + [c] + b;
    assert s[..|a|] == a && s[|a|] == c && s[|a| + 1..] == b;
    assert IndexOf(s, c) >= |a| by {
      assert forall i :: 0 <= i < |a| ==> s[i] == a[i];
    }
    assert IndexOf(s, c) <= |a| by {
      assert forall i :: |a| < i <= |s| ==> s[..i][|a|] == c;
    }
  }

  lemma AbsentBefore(s: string, c: char, n: nat)
    requires n <= |s| && c !in s[..n]
    ensures forall i :: 0 <= i < n ==> s[i] != c
  {
    forall i | 0 <= i < n ensures s[i] != c { assert s[..n][i] == s[i]; }
  }

  lemma IndexOfIs(s: string, c: char, i: nat)
    requires i < |s| && s[i] == c && c !in s[..i]
    ensures IndexOf(s, c) == i
  {
    var k := IndexOf(s, c);
    AbsentBefore(s, c, i);
    if k >= 0 { AbsentBefore(s, c, k); }
  }

  lemma NotInPrefix(s: string, c: char, n: nat)
    requires n <= |s|
    requires IndexOf(s, c) < 0 || n <= IndexOf(s, c)
    ensures c !in s[..n]
  {
    var k := IndexOf(s, c);
    if k >= 0 { assert forall i :: 0 <= i < n ==> s[..n][i] == s[..k][i]; }
  }

  lemma ConcatAssociative(a: string, b: string, c: string, d: string)
    ensures a + b + c + d == a + (b + c + d)
  {
  }

  lemma Associative<T>(a: seq<T>, b: seq<T>, c: seq<T>)
    ensures (a + b) + c == a + (b + c)
  {
  }

  lemma ConcatMiddle(a: string, b: string, c: string, d: string, e: string)
    ensures a + b + (c + d + e) == (a + b + c) + d + e
  {
  }

  // --------------------------------------------------------------- whitespace

  predicate IsAscii(c: char) {
    c < '\U{80}'
  }

  predicate IsAsciiSpace(c: char) {
    c in {' ', '\t', '\n', '\U{0B}', '\U{0C}', '\r'}
  }

  /** The two-byte encodings of whitespace: U+0085 and U+00A0. */
  predicate IsSpace2(a: char, b: char) {
    a == '\U{C2}' && b in {'\U{85}', '\U{A0}'}
  }

  /** The three-byte encodings: U+1680, U+2000 to U+200A, U+2028, U+2029, U+202F, U+205F, U+3000. */
  predicate IsSpace3(a: char, b: char, c: char) {
    || (a == '\U{E1}' && b == '\U{9A}' && c == '\U{80}')
    || (a == '\U{E2}' && b == '\U{80}' && ('\U{80}' <= c <= '\U{8A}' || c in {'\U{A8}', '\U{A9}', '\U{AF}'}))
    || (a == '\U{E2}' && b == '\U{81}' && c == '\U{9F}')
    || (a == '\U{E3}' && b == '\U{80}' && c == '\U{80}')
  }

  /** The length of the whitespace character `s` begins with; 0 if it begins with another. */
  function LeadingSpace(s: string): (n: nat)
    ensures n <= |s|
  {
    if |s| >= 1 && IsAsciiSpace(s[0]) then 1
    else if |s| >= 2 && IsSpace2(s[0], s[1]) then 2
    else if |s| >= 3 && IsSpace3(s[0], s[1], s[2]) then 3
    else 0
  }

  /** The length of the whitespace character `s` ends with; 0 if it ends with another. */
  function TrailingSpace(s: string): (n: nat)
    ensures n <= |s|
  {
    var m := |s|;
    if m >= 1 && IsAsciiSpace(s[m - 1]) then 1
    else if m >= 2 && IsSpace2(s[m - 2], s[m - 1]) then 2
    else if m >= 3 && IsSpace3(s[m - 3], s[m - 2], s[m - 1]) then 3
    else 0
  }

  /** Unicode's White_Space characters. */
  predicate IsWhiteSpace(code: nat) {
    || 0x09 <= code <= 0x0D
    || 0x2000 <= code <= 0x200A
    || code in {0x20, 0x85, 0xA0, 0x1680, 0x2028, 0x2029, 0x202F, 0x205F, 0x3000}
  }

  /** UTF-8 below U+10000, as in section 3 of RFC 3629. */
  function Utf8(code: nat): (s: string)
    requires code < 0x1_0000
    ensures 1 <= |s| <= 3
  {
    if code < 0x80 then [code as char]
    else if code < 0x800 then [(0xC0 + code / 0x40) as char, (0x80 + code % 0x40) as char]
    else [(0xE0 + code / 0x1000) as char, (0x80 + code / 0x40 % 0x40) as char, (0x80 + code % 0x40) as char]
  }

  lemma WhiteSpace2(code: nat)
    requires 0x80 <= code < 0x800
    ensures var u := Utf8(code);
            && IsSpace2(u[0], u[1]) == IsWhiteSpace(code)
            && '\U{C0}' <= u[0] && '\U{80}' <= u[1] < '\U{C0}'
  {
    assert code == 0x40 * (code / 0x40) + code % 0x40;
  }

  lemma WhiteSpace3(code: nat)
    requires 0x800 <= code < 0x1_0000
    ensures var u := Utf8(code);
            && IsSpace3(u[0], u[1], u[2]) == IsWhiteSpace(code)
            && '\U{E0}' <= u[0] && '\U{80}' <= u[1] < '\U{C0}' && '\U{80}' <= u[2] < '\U{C0}'
  {
    assert code == 0x1000 * (code / 0x1000) + 0x40 * (code / 0x40 % 0x40) + code % 0x40;
  }

  /** In front of any text and at its end, a character is trimmed exactly if it is white space,
      and then as a whole. */
  lemma SpaceIsWhiteSpace(code: nat, s: string)
    requires code < 0x1_0000
    ensures LeadingSpace(Utf8(code) + s) == if IsWhiteSpace(code) then |Utf8(code)| else 0
    ensures TrailingSpace(s + Utf8(code)) == if IsWhiteSpace(code) then |Utf8(code)| else 0
  {
    if 0x800 <= code {
      WhiteSpace3(code);
    } else if 0x80 <= code {
      WhiteSpace2(code);
    }
  }

  function TrimLeft(s: string): (r: string)
    ensures LeadingSpace(r) == 0
  {
    var n := LeadingSpace(s);
    if n == 0 then s else TrimLeft(s[n..])
  }

  function TrimRight(s: string): (r: string)
    ensures r <= s
    ensures TrailingSpace(r) == 0
  {
    var n := TrailingSpace(s);
    if n == 0 then s else TrimRight(s[..|s| - n])
  }

  /** `strings.TrimSpace`. */
  function TrimSpace(s: string): string {
    TrimRight(TrimLeft(s))
  }

  predicate Trimmed(s: string) {
    LeadingSpace(s) == 0 && TrailingSpace(s) == 0
  }

  lemma TrimKeepsTrimmed(s: string)
    requires Trimmed(s)
    ensures TrimSpace(s) == s
  {
  }

  /** No whitespace character straddles a plain ASCII one, so whatever follows does not matter. */
  lemma LeadingSpacePrefix(a: string, c: char, b: string)
    requires a != "" && IsAscii(c)
    ensures LeadingSpace(a + [c] + b) == LeadingSpace(a)
  {
  }

  /** ... and whatever precedes a plain ASCII character does not matter to trimming on the right. */
  lemma TrailingSpaceSuffix(a: string, c: char, b: string)
    requires IsAscii(c) && !IsAsciiSpace(c)
    ensures TrailingSpace(a + [c] + b) == TrailingSpace(b)
  {
    var s := a + [c] + b;
    assert s[|a|] == c;
    assert forall k :: 0 <= k < |b| ==> s[|a| + 1 + k] == b[k];
  }

  lemma {:induction false} TrimRightSuffix(a: string, c: char, b: string)
    requires IsAscii(c) && !IsAsciiSpace(c)
    ensures TrimRight(a + [c] + b) == a + [c] + TrimRight(b)
    decreases |b|
  {
    TrailingSpaceSuffix(a, c, b);
    var s, n := a + [c] + b, TrailingSpace(b);
    if n != 0 {
      assert s[..|s| - n] == a + [c] + b[..|b| - n];
      TrimRightSuffix(a, c, b[..|b| - n]);
    }
  }

  /** Trimming on the right leaves the front alone, unless it trims everything. */
  lemma {:induction false} TrimRightKeepsFront(s: string)
    requires LeadingSpace(s) == 0
    ensures LeadingSpace(TrimRight(s)) == 0
  {
    var r := TrimRight(s);
    assert forall i :: 0 <= i < |r| ==> r[i] == s[i];
  }

  lemma TrimSpaceTrims(s: string)
    ensures Trimmed(TrimSpace(s))
  {
    TrimRightKeepsFront(TrimLeft(s));
  }

  /** What trimming takes off the right is whitespace: no ASCII character but a blank is in it. */
  lemma {:induction false} TrimRightTakesSpace(s: string)
    ensures forall i :: |TrimRight(s)| <= i < |s| && IsAscii(s[i]) ==> IsAsciiSpace(s[i])
    decreases |s|
  {
    var n := TrailingSpace(s);
    if n != 0 {
      var t := s[..|s| - n];
      TrimRightTakesSpace(t);
      forall i | |TrimRight(s)| <= i < |s| && IsAscii(s[i]) ensures IsAsciiSpace(s[i]) {
        if i < |t| {
          assert s[i] == t[i];
        } else {
          assert |s| - n <= i;
        }
      }
    }
  }
}
