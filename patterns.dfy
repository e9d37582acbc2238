/** The two anchored regular expressions the core tests strings against,
    `^[a-f0-9]{64}$` with the `i` flag and `^[a-zA-Z0-9-_]{1,100}$`: both are a
    single character class under a bounded repetition, matched here one
    character at a time as a backtracking-free regex engine would. */
module Patterns {

  /** One character of the class `[a-f0-9]` under the case-insensitive flag. */
  predicate IsHexDigitAnyCase(c: char) {
    ('0' <= c <= '9') || ('a' <= c <= 'f') || ('A' <= c <= 'F')
  }

  /** One character of the class `[a-zA-Z0-9-_]`. */
  predicate IsCampaignChar(c: char) {
    ('a' <= c <= 'z') || ('A' <= c <= 'Z') || ('0' <= c <= '9') || c == '-' || c == '_'
  }

  /** Does the whole of `s` match `^[cls]{lo,hi}$`? Each step consumes one
      character of the class, lowering the outstanding minimum and maximum. */
  predicate RepeatMatch(cls: char -> bool, s: string, lo: nat, hi: nat)
    decreases |s|
  {
    if s == [] then lo == 0
    else 0 < hi && cls(s[0]) && RepeatMatch(cls, s[1..], if lo == 0 then 0 else lo - 1, hi - 1)
  }

  /** The matcher accepts exactly the strings of length `lo..hi` made only of
      class characters. */
  lemma {:induction false} RepeatMatchSpec(cls: char -> bool, s: string, lo: nat, hi: nat)
    requires lo <= hi
    ensures RepeatMatch(cls, s, lo, hi) <==> lo <= |s| <= hi && forall i :: 0 <= i < |s| ==> cls(s[i])
    decreases |s|
  {
    if s != [] && 0 < hi {
      var lo' := if lo == 0 then 0 else lo - 1;
      RepeatMatchSpec(cls, s[1..], lo', hi - 1);
      assert (forall i :: 0 <= i < |s| ==> cls(s[i]))
         <==> cls(s[0]) && (forall i :: 0 <= i < |s[1..]| ==> cls(s[1..][i])) by {
        if cls(s[0]) && (forall i :: 0 <= i < |s[1..]| ==> cls(s[1..][i])) {
          forall i | 0 <= i < |s| ensures cls(s[i]) {
            if i > 0 { assert s[i] == s[1..][i - 1]; }
          }
        }
      }
    }
  }
}
