/**
 * ASCII stand-ins for the three Go string helpers the template store relies on:
 * `strings.TrimSpace`, `strings.ToLower` and `strings.Contains`.
 */
module Text {

  /** The ASCII white-space characters recognised by `TrimSpace`. */
  predicate IsSpace(c: char) {
    c == ' ' || c == '\t' || c == '\n' || c == '\r' || c == '\U{B}' || c == '\U{C}'
  }

  /** Number of white-space characters at the front of `s`. */
  function LeadingSpaces(s: string): (n: nat)
    ensures n <= |s|
    ensures forall i :: 0 <= i < n ==> IsSpace(s[i])
    ensures n == |s| || !IsSpace(s[n])
  {
    if s == [] || !IsSpace(s[0]) then 0 else 1 + LeadingSpaces(s[1..])
  }

  /** Number of white-space characters at the back of `s`. */
  function TrailingSpaces(s: string): (n: nat)
    ensures n <= |s|
    ensures forall i :: |s| - n <= i < |s| ==> IsSpace(s[i])
    ensures n == |s| || !IsSpace(s[|s| - 1 - n])
  {
    if s == [] || !IsSpace(s[|s| - 1]) then 0 else 1 + TrailingSpaces(s[..|s| - 1])
  }

  /** `s` without its leading and trailing white space. */
  function TrimSpace(s: string): (r: string)
    ensures |r| <= |s|
    ensures r == [] || (!IsSpace(r[0]) && !IsSpace(r[|r| - 1]))
  {
    var a := LeadingSpaces(s);
    if a == |s| then [] else s[a..|s| - TrailingSpaces(s)]
  }

  /** Where the trimmed text sits: after the leading and before the trailing white space. */
  lemma {:induction false} TrimSpaceWindow(s: string)
    ensures LeadingSpaces(s) == |s| ==> TrimSpace(s) == []
    ensures LeadingSpaces(s) < |s| ==>
      LeadingSpaces(s) < |s| - TrailingSpaces(s) && TrimSpace(s) == s[LeadingSpaces(s)..|s| - TrailingSpaces(s)]
  {
  }

  /** Trimming removes white space at the two ends and nothing else. */
  lemma {:induction false} TrimSpaceIsOuterSlice(s: string)
    ensures exists a, b ::
      && 0 <= a <= b <= |s| && TrimSpace(s) == s[a..b]
      && (forall i :: 0 <= i < a ==> IsSpace(s[i]))
      && (forall i :: b <= i < |s| ==> IsSpace(s[i]))
  {
    TrimSpaceWindow(s);
    var a := LeadingSpaces(s);
    if a == |s| {
      assert TrimSpace(s) == s[a..a];
    } else {
      assert TrimSpace(s) == s[a..|s| - TrailingSpaces(s)];
    }
  }

  /** A string that neither starts nor ends with white space is its own trimmed form. */
  lemma {:induction false} TrimUnpadded(s: string)
    requires s == [] || (!IsSpace(s[0]) && !IsSpace(s[|s| - 1]))
    ensures TrimSpace(s) == s
  {
    TrimSpaceWindow(s);
  }

  /** ASCII lower-casing of one character. */
  function LowerChar(c: char): char {
    if 'A' <= c <= 'Z' then (c as int - 'A' as int + 'a' as int) as char else c
  }

  /** ASCII lower-casing, character by character: capitals move to their lower-case letter, every other character stays. */
  function ToLower(s: string): (r: string)
    ensures |r| == |s|
    ensures forall i {:trigger r[i]} :: 0 <= i < |s| ==> r[i] == LowerChar(s[i])
    ensures forall i {:trigger r[i]} :: 0 <= i < |s| ==> !('A' <= r[i] <= 'Z')
    ensures forall i {:trigger r[i]} :: 0 <= i < |s| ==>
      if 'A' <= s[i] <= 'Z' then r[i] as int == s[i] as int + 32 else r[i] == s[i]
  {
    seq(|s|, i requires 0 <= i < |s| => LowerChar(s[i]))
  }

  /** Lower-casing twice is lower-casing once. */
  lemma {:induction false} ToLowerIdempotent(s: string)
    ensures ToLower(ToLower(s)) == ToLower(s)
  {
  }

  /** Lower-casing neither adds nor removes leading white space. */
  lemma {:induction false} LowerKeepsLeadingSpaces(s: string)
    ensures LeadingSpaces(ToLower(s)) == LeadingSpaces(s)
  {
    if s != [] {
      assert ToLower(s)[1..] == ToLower(s[1..]);
      LowerKeepsLeadingSpaces(s[1..]);
    }
  }

  /** Lower-casing neither adds nor removes trailing white space. */
  lemma {:induction false} LowerKeepsTrailingSpaces(s: string)
    ensures TrailingSpaces(ToLower(s)) == TrailingSpaces(s)
  {
    if s != [] {
      assert ToLower(s)[..|s| - 1] == ToLower(s[..|s| - 1]);
      LowerKeepsTrailingSpaces(s[..|s| - 1]);
    }
  }

  /** Lower-casing commutes with slicing. */
  lemma {:induction false} LowerSlice(s: string, a: nat, b: nat)
    requires a <= b <= |s|
    ensures ToLower(s)[a..b] == ToLower(s[a..b])
  {
  }

  /** Lower-casing moves neither end of the trimmed window. */
  lemma {:induction false} LowerKeepsWindow(s: string)
    requires LeadingSpaces(s) < |s|
    ensures var a, b := LeadingSpaces(s), TrailingSpaces(s);
      a < |s| - b && TrimSpace(ToLower(s)) == ToLower(s)[a..|s| - b]
  {
    LowerKeepsLeadingSpaces(s);
    LowerKeepsTrailingSpaces(s);
    TrimSpaceWindow(s);
    TrimSpaceWindow(ToLower(s));
  }

  /** Lower-casing leaves nothing to trim when there was nothing but white space. */
  lemma {:induction false} LowerKeepsBlank(s: string)
    requires LeadingSpaces(s) == |s|
    ensures TrimSpace(ToLower(s)) == ToLower(TrimSpace(s))
  {
    LowerKeepsLeadingSpaces(s);
    TrimSpaceWindow(s);
    TrimSpaceWindow(ToLower(s));
  }

  /** Trimming and lower-casing commute on a string with some text in it. */
  lemma {:induction false} LowerKeepsTrimmed(s: string)
    requires LeadingSpaces(s) < |s|
    ensures TrimSpace(ToLower(s)) == ToLower(TrimSpace(s))
  {
    var a, b := LeadingSpaces(s), TrailingSpaces(s);
    calc {
      TrimSpace(ToLower(s));
      { LowerKeepsWindow(s); }
      ToLower(s)[a..|s| - b];
      { LowerSlice(s, a, |s| - b); }
      ToLower(s[a..|s| - b]);
      { TrimSpaceWindow(s); }
      ToLower(TrimSpace(s));
    }
  }

  /** Trimming and lower-casing can be done in either order. */
  lemma {:induction false} TrimLowerCommute(s: string)
    ensures TrimSpace(ToLower(s)) == ToLower(TrimSpace(s))
  {
    if LeadingSpaces(s) < |s| {
      LowerKeepsTrimmed(s);
    } else {
      LowerKeepsBlank(s);
    }
  }

  /** `sub` sits in `s` starting at index `i`. */
  predicate OccursAt(s: string, sub: string, i: int) {
    0 <= i <= |s| - |sub| && s[i..i + |sub|] == sub
  }

  /** Whether `sub` occurs in `s` as a contiguous piece, as `strings.Contains` decides. */
  function Contains(s: string, sub: string): (r: bool)
    ensures sub <= s ==> r
    ensures r ==> |sub| <= |s|
  {
    sub <= s || (s != [] && Contains(s[1..], sub))
  }

  /** An occurrence in the tail is an occurrence one place further on in the whole. */
  lemma {:induction false} OccursShift(s: string, sub: string, i: int)
    requires s != [] && i >= 0
    ensures OccursAt(s[1..], sub, i) <==> OccursAt(s, sub, i + 1)
  {
    if i <= |s| - 1 - |sub| {
      assert s[1..][i..i + |sub|] == s[i + 1..i + 1 + |sub|];
    }
  }

  /** An occurrence at the front is a prefix. */
  lemma {:induction false} OccursAtFront(s: string, sub: string)
    ensures OccursAt(s, sub, 0) <==> sub <= s
  {
  }

  /** `Contains` agrees with the textbook definition of a substring occurrence. */
  lemma {:induction false} ContainsIffOccurs(s: string, sub: string)
    ensures Contains(s, sub) <==> exists i :: OccursAt(s, sub, i)
  {
    OccursAtFront(s, sub);
    if s == [] {
      assert forall i :: OccursAt(s, sub, i) ==> i == 0;
    } else {
      ContainsIffOccurs(s[1..], sub);
      if Contains(s, sub) {
        if !(sub <= s) {
          var i :| OccursAt(s[1..], sub, i);
          OccursShift(s, sub, i);
        }
      } else {
        forall i | OccursAt(s, sub, i)
          ensures false
        {
          if i > 0 {
            OccursShift(s, sub, i - 1);
          }
        }
      }
    }
  }
}
