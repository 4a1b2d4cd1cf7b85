/** The name written into a session summary (App.tsx, endSession): the
    player's name with surrounding white space removed, as JavaScript's
    String.prototype.trim does, or "Guest" when nothing is left. */
module PlayerName {

  /** The characters trim removes: ECMAScript's WhiteSpace (tab, vertical
      tab, form feed, the byte-order mark and every space separator) and
      LineTerminator code points. */
  predicate IsTrimmable(c: char) {
    c == '\t' || c == '\n' || c == '\U{000B}' || c == '\U{000C}' || c == '\r' ||
    c == ' ' || c == '\U{00A0}' || c == '\U{1680}' || ('\U{2000}' <= c <= '\U{200A}') ||
    c == '\U{2028}' || c == '\U{2029}' || c == '\U{202F}' || c == '\U{205F}' ||
    c == '\U{3000}' || c == '\U{FEFF}'
  }

  /** Removes the longest trimmable prefix. */
  function TrimStart(s: string): (r: string)
    ensures |r| <= |s| && r == s[|s| - |r|..]
    ensures forall k :: 0 <= k < |s| - |r| ==> IsTrimmable(s[k])
    ensures r != [] ==> !IsTrimmable(r[0])
  {
    if s != [] && IsTrimmable(s[0]) then TrimStart(s[1..]) else s
  }

  /** Removes the longest trimmable suffix. */
  function TrimEnd(s: string): (r: string)
    ensures |r| <= |s| && r == s[..|r|]
    ensures forall k :: |r| <= k < |s| ==> IsTrimmable(s[k])
    ensures r != [] ==> !IsTrimmable(r[|r| - 1])
  {
    if s != [] && IsTrimmable(s[|s| - 1]) then TrimEnd(s[..|s| - 1]) else s
  }

  /** String.prototype.trim: both ends stripped of white space. */
  function Trim(s: string): (r: string)
    ensures |r| <= |s|
    ensures r != [] ==> !IsTrimmable(r[0]) && !IsTrimmable(r[|r| - 1])
  {
    TrimEnd(TrimStart(s))
  }

  /** Trim keeps a contiguous middle part of the name with no trimmable
      character at either end, and drops only trimmable characters. */
  lemma TrimIsMiddle(s: string) returns (i: nat)
    ensures var r := Trim(s);
      i + |r| <= |s| && r == s[i..i + |r|] &&
      (forall k :: 0 <= k < i ==> IsTrimmable(s[k])) &&
      (forall k :: i + |r| <= k < |s| ==> IsTrimmable(s[k]))
    ensures var r := Trim(s);
      r != [] ==> !IsTrimmable(r[0]) && !IsTrimmable(r[|r| - 1])
  {
    var t := TrimStart(s);
    var r := TrimEnd(t);
    i := |s| - |t|;
    MiddleOfSuffix(s, t, r);
  }

  /** A prefix r of the suffix t of s, followed in t only by trimmable
      characters, sits at |s| - |t| in s and is followed there by the
      same characters. */
  lemma MiddleOfSuffix(s: string, t: string, r: string)
    requires |t| <= |s| && t == s[|s| - |t|..]
    requires |r| <= |t| && r == t[..|r|]
    requires forall k :: |r| <= k < |t| ==> IsTrimmable(t[k])
    ensures var i := |s| - |t|;
      r == s[i..i + |r|] && forall k :: i + |r| <= k < |s| ==> IsTrimmable(s[k])
  {
    var i := |s| - |t|;
    SuffixSlice(s, i, |r|);
  }

  /** The first n characters of the suffix from i are s[i..i + n], and
      position k of s is position k - i of that suffix. */
  lemma SuffixSlice(s: string, i: nat, n: nat)
    requires i + n <= |s|
    ensures s[i..][..n] == s[i..i + n]
    ensures forall k :: i <= k < |s| ==> s[k] == s[i..][k - i]
  {
  }

  /** Trim gives the empty string exactly when every character is
      trimmable. */
  lemma TrimEmptyIff(s: string)
    ensures Trim(s) == [] <==> forall k :: 0 <= k < |s| ==> IsTrimmable(s[k])
  {
    var t := TrimStart(s);
    if !forall k :: 0 <= k < |s| ==> IsTrimmable(s[k]) {
      var _ := TrimIsMiddle(s);
    }
  }

  /** The name recorded in a summary: trimmed, or "Guest" when empty. */
  function DisplayName(name: string): (r: string)
    ensures r != [] && !IsTrimmable(r[0]) && !IsTrimmable(r[|r| - 1])
    ensures (forall k :: 0 <= k < |name| ==> IsTrimmable(name[k])) ==> r == "Guest"
    ensures (exists k :: 0 <= k < |name| && !IsTrimmable(name[k])) ==> r == Trim(name)
  {
    var t := Trim(name);
    TrimEmptyIff(name);
    if t == [] then "Guest" else t
  }
}
