/** Locating a separator in a string. */
module Strings {
  /** The first position of `c`, or the length if it does not occur. */
  function FindChar(s: string, c: char): (i: nat)
    ensures i <= |s| && (i < |s| ==> s[i] == c) && forall j :: 0 <= j < i ==> s[j] != c
  {
    if s == "" || s[0] == c then 0 else 1 + FindChar(s[1..], c)
  }
}
