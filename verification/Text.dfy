// Strings as the scripts use them: trimming and substring search.
module Text {
  /** The characters String.prototype.trim removes: white space and line terminators. */
  predicate IsSpace(c: char) {
    c in "\t\n\r \U{0B}\U{0C}\U{A0}\U{1680}\U{2028}\U{2029}\U{202F}\U{205F}\U{3000}\U{FEFF}" ||
    '\U{2000}' <= c <= '\U{200A}'
  }

  function TrimStart(s: string): (r: string)
    ensures |r| <= |s| && r == s[|s| - |r|..]
    ensures r != "" ==> !IsSpace(r[0])
  {
    if s != "" && IsSpace(s[0]) then TrimStart(s[1..]) else s
  }

  function TrimEnd(s: string): (r: string)
    ensures |r| <= |s| && r == s[..|r|]
    ensures r != "" ==> !IsSpace(r[|r| - 1])
  {
    if s != "" && IsSpace(s[|s| - 1]) then TrimEnd(s[..|s| - 1]) else s
  }

  function Trim(s: string): (r: string)
    ensures |r| <= |s|
    ensures r != "" ==> !IsSpace(r[0]) && !IsSpace(r[|r| - 1])
  {
    TrimEnd(TrimStart(s))
  }

  /** By code point: tab to carriage return, the space and line separators of Unicode, and the byte order mark. */
  lemma SpaceCodes(c: char)
    ensures IsSpace(c)
       <==> c as int in {0x9, 0xa, 0xb, 0xc, 0xd, 0x20, 0xa0, 0x1680, 0x2028, 0x2029, 0x202f, 0x205f, 0x3000, 0xfeff}
            || 0x2000 <= c as int <= 0x200a
  {
  }

  predicate AllSpace(s: string) {
    forall c <- s :: IsSpace(c)
  }

  lemma {:induction false} StartCut(s: string) returns (cut: string)
    ensures s == cut + TrimStart(s) && AllSpace(cut)
  {
    hide IsSpace;
    cut := "";
    if s != "" && IsSpace(s[0]) {
      var more := StartCut(s[1..]);
      cut := [s[0]] + more;
    }
  }

  lemma {:induction false} EndCut(s: string) returns (cut: string)
    ensures s == TrimEnd(s) + cut && AllSpace(cut)
  {
    hide IsSpace;
    cut := "";
    if s != "" && IsSpace(s[|s| - 1]) {
      var more := EndCut(s[..|s| - 1]);
      cut := more + [s[|s| - 1]];
    }
  }

  /** Trimming cuts only white space, and all of it at both ends. */
  lemma TrimCuts(s: string) returns (front: string, back: string)
    ensures s == front + Trim(s) + back && AllSpace(front) && AllSpace(back)
    ensures Trim(s) != "" ==> !IsSpace(Trim(s)[0]) && !IsSpace(Trim(s)[|Trim(s)| - 1])
  {
    hide IsSpace, TrimStart, TrimEnd, AllSpace;
    front := StartCut(s);
    back := EndCut(TrimStart(s));
    assert s == front + (Trim(s) + back);
  }

  predicate Trimmed(s: string) {
    s == "" || (!IsSpace(s[0]) && !IsSpace(s[|s| - 1]))
  }

  /** Only a trimmed string keeps its length. */
  lemma TrimFixes(s: string)
    ensures Trimmed(s) <==> Trim(s) == s
    ensures |Trim(s)| == |s| ==> Trim(s) == s
  {
  }

  /** `s.startsWith(pat, at)`. */
  predicate OccursAt(s: string, pat: string, at: int) {
    0 <= at && at + |pat| <= |s| && s[at..at + |pat|] == pat
  }

  predicate Occurs(s: string, pat: string) {
    exists at :: 0 <= at <= |s| && OccursAt(s, pat, at)
  }
}
