/** The three string operations the task list relies on, on `seq<char>`:
    ECMAScript's `String.prototype.trim`, `toLowerCase` and `includes`. */
module Text {

  /** The code points `trim` removes: ECMAScript's WhiteSpace (tab, vertical tab,
      form feed, the byte order mark and every space separator) and
      LineTerminator (line feed, carriage return, U+2028, U+2029). */
  predicate IsSpace(c: char) {
    || c == '\t' || c == '\n' || c == '\U{000B}' || c == '\U{000C}' || c == '\r'
    || c == ' ' || c == '\U{00A0}' || c == '\U{1680}'
    || ('\U{2000}' <= c <= '\U{200A}')
    || c == '\U{2028}' || c == '\U{2029}' || c == '\U{202F}' || c == '\U{205F}'
    || c == '\U{3000}' || c == '\U{FEFF}'
  }

  predicate AllSpace(s: string) {
    forall k :: 0 <= k < |s| ==> IsSpace(s[k])
  }

  /** How many white-space characters `s` starts with. */
  function LeadingSpace(s: string): (n: nat)
    ensures n <= |s|
    ensures forall k :: 0 <= k < n ==> IsSpace(s[k])
    ensures n < |s| ==> !IsSpace(s[n])
  {
    if s == [] || !IsSpace(s[0]) then 0 else 1 + LeadingSpace(s[1..])
  }

  /** How many white-space characters `s` ends with. */
  function TrailingSpace(s: string): (n: nat)
    ensures n <= |s|
    ensures forall k :: |s| - n <= k < |s| ==> IsSpace(s[k])
    ensures n < |s| ==> !IsSpace(s[|s| - n - 1])
  {
    if s == [] || !IsSpace(s[|s| - 1]) then 0 else 1 + TrailingSpace(s[..|s| - 1])
  }

  /** `trim`: the part of `s` between its leading and its trailing white space.
      It is empty exactly when `s` is all white space, and otherwise it starts
      and ends with a character that is not white space. */
  function Trim(s: string): (r: string)
    ensures r == [] <==> AllSpace(s)
    ensures r != [] ==> !IsSpace(r[0]) && !IsSpace(r[|r| - 1])
  {
    var i := LeadingSpace(s);
    if i == |s| then [] else s[i..|s| - TrailingSpace(s)]
  }

  /** What `trim` keeps is one contiguous run `s[i..j]` of `s`, with only white
      space before and after it. */
  lemma TrimIsSlice(s: string) returns (i: nat, j: nat)
    ensures i <= j <= |s| && Trim(s) == s[i..j]
    ensures AllSpace(s[..i]) && AllSpace(s[j..])
  {
    i := LeadingSpace(s);
    j := if i == |s| then i else |s| - TrailingSpace(s);
    assert forall k :: 0 <= k < |s| - j ==> s[j..][k] == s[j + k];
  }

  /** Trimming a trimmed string changes nothing. */
  lemma TrimIdempotent(s: string)
    ensures Trim(Trim(s)) == Trim(s)
  {
    var r := Trim(s);
    if r != [] {
      assert LeadingSpace(r) == 0 && TrailingSpace(r) == 0;
      assert r[0..|r|] == r;
    }
  }

  /** `toLowerCase` on the ASCII letters; every other character is kept. */
  function LowerChar(c: char): char {
    if 'A' <= c <= 'Z' then (c as int + 32) as char else c
  }

  function ToLower(s: string): (r: string)
    ensures |r| == |s|
  {
    seq(|s|, i requires 0 <= i < |s| => LowerChar(s[i]))
  }

  /** Lower-casing twice is lower-casing once. */
  lemma ToLowerIdempotent(s: string)
    ensures ToLower(ToLower(s)) == ToLower(s)
  {
  }

  predicate OccursAt(s: string, t: string, i: nat) {
    i + |t| <= |s| && s[i..i + |t|] == t
  }

  /** `includes`: `t` occurs in `s` as a contiguous run. */
  function Contains(s: string, t: string): (r: bool)
    ensures r <==> exists i: nat :: OccursAt(s, t, i)
    decreases |s|
  {
    if |t| > |s| then
      false
    else if s[..|t|] == t then
      assert OccursAt(s, t, 0);
      true
    else
      var r := Contains(s[1..], t);
      assert forall i: nat :: OccursAt(s[1..], t, i) <==> OccursAt(s, t, i + 1) by {
        forall i: nat ensures OccursAt(s[1..], t, i) <==> OccursAt(s, t, i + 1) {
          if i + |t| <= |s| - 1 { assert s[1..][i..i + |t|] == s[i + 1..i + 1 + |t|]; }
        }
      }
      assert r ==> exists i: nat :: OccursAt(s, t, i) by {
        if r {
          var i: nat :| OccursAt(s[1..], t, i);
          assert OccursAt(s, t, i + 1);
        }
      }
      assert (exists i: nat :: OccursAt(s, t, i)) ==> r by {
        if exists i: nat :: OccursAt(s, t, i) {
          var i: nat :| OccursAt(s, t, i);
          assert i != 0;
          assert OccursAt(s[1..], t, i - 1);
        }
      }
      r
  }
}
