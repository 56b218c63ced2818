// scripts/sync-moonshot-docs.ts: rewriting the lines between two markers.
module BlockLines {
  import opened Wrappers
  import opened Text

  datatype BlockError = MissingStart(marker: string) | MissingEnd(marker: string)

  // ---------- Searching ----------

  /** `s.indexOf(pat, from)`. */
  function IndexOf(s: string, pat: string, from: nat): (r: Option<nat>)
    requires from <= |s|
    ensures r.None? ==> forall j :: from <= j ==> !OccursAt(s, pat, j)
    ensures r.Some? ==> from <= r.value <= |s| && OccursAt(s, pat, r.value)
    ensures r.Some? ==> forall j :: from <= j < r.value ==> !OccursAt(s, pat, j)
    decreases |s| - from
  {
    if OccursAt(s, pat, from) then Some(from)
    else if from == |s| then None
    else IndexOf(s, pat, from + 1)
  }

  /** One past `s.lastIndexOf("\n", i)`. */
  function LineStart(s: string, i: nat): (r: nat)
    requires i <= |s|
    ensures r <= |s| && r <= i + 1
    ensures r > 0 ==> s[r - 1] == '\n'
    ensures forall j :: r <= j <= i && j < |s| ==> s[j] != '\n'
  {
    if i < |s| && s[i] == '\n' then i + 1
    else if i == 0 then 0
    else LineStart(s, i - 1)
  }

  /** One past `s.indexOf("\n", i)`, or the end. */
  function LineEnd(s: string, i: nat): (r: nat)
    requires i <= |s|
    ensures i <= r <= |s|
    ensures forall j :: i <= j < r - 1 ==> s[j] != '\n'
    ensures r < |s| ==> r > i && s[r - 1] == '\n'
    decreases |s| - i
  {
    if i == |s| then i
    else if s[i] == '\n' then i + 1
    else LineEnd(s, i + 1)
  }

  // ---------- replaceBlockLines ----------

  /** What the rewrite keeps. */
  datatype Place = Place(before: string, indent: string, after: string)

  function Locate(text: string, start: string, end: string): Result<Place, BlockError> {
    match IndexOf(text, start, 0)
    case None => Err(MissingStart(start))
    case Some(i) =>
      match IndexOf(text, end, i)
      case None => Err(MissingEnd(end))
      case Some(j) =>
        var lineStart := LineStart(text, i);
        Ok(Place(text[..lineStart],
                 if lineStart <= i then text[lineStart..i] else "",
                 text[LineEnd(text, j)..]))
  }

  function JoinLines(lines: seq<string>): string
    requires lines != []
  {
    if |lines| == 1 then lines[0] else lines[0] + "\n" + JoinLines(lines[1..])
  }

  function Indented(indent: string, lines: seq<string>): (r: seq<string>)
    ensures |r| == |lines| && forall k :: 0 <= k < |r| ==> r[k] == indent + lines[k]
  {
    seq(|lines|, k requires 0 <= k < |lines| => indent + lines[k])
  }

  function Render(p: Place, start: string, end: string, lines: seq<string>): string {
    var replacement := JoinLines([p.indent + start] + Indented(p.indent, lines) + [p.indent + end]);
    if p.after == "" then p.before + replacement else p.before + replacement + "\n" + p.after
  }

  function ReplaceBlockLines(text: string, start: string, end: string, lines: seq<string>): Result<string, BlockError> {
    match Locate(text, start, end)
    case Err(e) => Err(e)
    case Ok(p) => Ok(Render(p, start, end, lines))
  }

  // ---------- The shape of a written block ----------

  predicate OneLine(s: string) { forall i :: 0 <= i < |s| ==> s[i] != '\n' }

  predicate Marker(s: string) { s != "" && OneLine(s) }

  /** Lines, each closed by a newline. */
  function Closed(lines: seq<string>): string {
    if lines == [] then "" else lines[0] + ("\n" + Closed(lines[1..]))
  }

  lemma {:induction false} JoinIsClosed(lines: seq<string>, last: string)
    ensures JoinLines(lines + [last]) == Closed(lines) + last
  {
    if lines == [] {
      assert JoinLines([last]) == last;
    } else {
      JoinIsClosed(lines[1..], last);
      assert (lines + [last])[1..] == lines[1..] + [last];
    }
  }

  function AfterText(after: string): (r: string)
    ensures |r| >= |after|
  {
    if after == "" then "" else "\n" + after
  }

  /** The lines a block has above its end marker. */
  function Above(indent: string, start: string, lines: seq<string>): seq<string> {
    [start] + Indented(indent, lines)
  }

  lemma RenderShape(p: Place, start: string, end: string, lines: seq<string>)
    ensures Render(p, start, end, lines)
         == p.before + p.indent + (Closed(Above(p.indent, start, lines)) + (p.indent + end + AfterText(p.after)))
  {
    var body := Indented(p.indent, lines);
    JoinIsClosed([p.indent + start] + body, p.indent + end);
    assert ([p.indent + start] + body)[1..] == body;
    assert ([start] + body)[1..] == body;
    var closed := Closed(body);
    assert Closed([p.indent + start] + body) == p.indent + start + ("\n" + closed);
    assert Closed([start] + body) == start + ("\n" + closed);
    hide Closed, Indented, JoinLines;
  }

  // ---------- Finding the block again ----------

  /** Where the first start marker stands in a text. */
  ghost predicate StartsAt(text: string, start: string, p: Place) {
    var b, i := |p.before|, |p.before| + |p.indent|;
    && i <= |text| && text[..b] == p.before && text[b..i] == p.indent && OccursAt(text, start, i)
    && (p.before == "" || p.before[|p.before| - 1] == '\n')
    && OneLine(p.indent)
    && forall j :: 0 <= j < i ==> !OccursAt(text, start, j)
  }

  lemma Pointwise(s: string, pat: string, at: nat)
    ensures OccursAt(s, pat, at)
       <==> at + |pat| <= |s| && forall i :: 0 <= i < |pat| ==> s[at + i] == pat[i]
  {
    if OccursAt(s, pat, at) {
      forall i | 0 <= i < |pat| ensures s[at + i] == pat[i] {
        assert s[at + i] == s[at..at + |pat|][i];
      }
    }
  }

  lemma LocateStart(text: string, start: string, end: string)
    requires Marker(start) && Locate(text, start, end).Ok?
    ensures StartsAt(text, start, Locate(text, start, end).value)
  {
    var p := Locate(text, start, end).value;
    var i := IndexOf(text, start, 0).value;
    hide OccursAt, LineEnd;
    Pointwise(text, start, i);
    assert text[i + 0] == start[0];
  }

  lemma {:induction false} StartFound(text: string, start: string, p: Place)
    requires Marker(start) && StartsAt(text, start, p)
    ensures IndexOf(text, start, 0) == Some(|p.before| + |p.indent|)
    ensures LineStart(text, |p.before| + |p.indent|) == |p.before|
  {
    var b, i := |p.before|, |p.before| + |p.indent|;
    Pointwise(text, start, i);
    hide OccursAt, IndexOf, LineStart;
    assert text[i + 0] == start[0];
    assert b > 0 ==> text[b - 1] == p.before[b - 1];
    assert forall k :: b <= k < i ==> text[k] == p.indent[k - b];
    assert forall k :: b <= k <= i ==> text[k] != '\n';
  }

  /** A text that agrees up to and including the marker has it in the same place. */
  lemma StartStays(text: string, other: string, start: string, p: Place)
    requires StartsAt(text, start, p)
    requires |other| >= |p.before| + |p.indent| + |start|
    requires forall k :: 0 <= k < |p.before| + |p.indent| + |start| ==> other[k] == text[k]
    ensures StartsAt(other, start, p)
  {
    var b, i := |p.before|, |p.before| + |p.indent|;
    assert other[..b] == text[..b];
    assert other[b..i] == text[b..i];
    hide OccursAt;
    forall j | 0 <= j <= i ensures OccursAt(other, start, j) <==> OccursAt(text, start, j) {
      Pointwise(text, start, j);
      Pointwise(other, start, j);
    }
  }

  /** The end marker shows up in no line above its own. */
  ghost predicate Clear(indent: string, start: string, end: string, lines: seq<string>) {
    !Occurs(start, end) && forall k :: 0 <= k < |lines| ==> !Occurs(indent + lines[k], end)
  }

  ghost predicate NoneHolds(lines: seq<string>, end: string) {
    forall k :: 0 <= k < |lines| ==> !Occurs(lines[k], end)
  }

  lemma ClearIsAbove(indent: string, start: string, end: string, lines: seq<string>)
    ensures Clear(indent, start, end, lines) <==> NoneHolds(Above(indent, start, lines), end)
  {
    var above := Above(indent, start, lines);
    if NoneHolds(above, end) {
      assert above[0] == start;
      forall k | 0 <= k < |lines| ensures !Occurs(indent + lines[k], end) {
        assert above[k + 1] == indent + lines[k];
      }
    }
  }

  lemma OccursInFirst(line: string, rest: string, end: string, p: nat)
    requires Marker(end) && p <= |line|
    ensures OccursAt(line + ("\n" + rest), end, p) <==> OccursAt(line, end, p)
  {
    var s := line + ("\n" + rest);
    assert s[|line|] == '\n';
    assert forall i :: 0 <= i < |line| ==> s[i] == line[i];
    Pointwise(s, end, p);
    Pointwise(line, end, p);
  }

  lemma OccursLater(line: string, rest: string, end: string, p: nat)
    requires p > |line|
    ensures OccursAt(line + ("\n" + rest), end, p) <==> OccursAt(rest, end, p - |line| - 1)
  {
    var s := line + ("\n" + rest);
    var q := p - |line| - 1;
    if p + |end| <= |s| {
      assert s[p..p + |end|] == rest[q..q + |end|];
    }
  }

  lemma InClosedStep(line: string, tail: string, n: nat, end: string)
    requires Marker(end) && n <= |tail|
    ensures (exists p :: 0 <= p < |line| + 1 + n && OccursAt(line + ("\n" + tail), end, p))
       <==> Occurs(line, end) || exists q :: 0 <= q < n && OccursAt(tail, end, q)
  {
    var s := line + ("\n" + tail);
    if p :| 0 <= p < |line| + 1 + n && OccursAt(s, end, p) {
      if p <= |line| {
        OccursInFirst(line, tail, end, p);
      } else {
        OccursLater(line, tail, end, p);
      }
    }
    if Occurs(line, end) {
      var p :| 0 <= p <= |line| && OccursAt(line, end, p);
      OccursInFirst(line, tail, end, p);
    }
    if q :| 0 <= q < n && OccursAt(tail, end, q) {
      OccursLater(line, tail, end, |line| + 1 + q);
    }
  }

  /** A one-line marker starts among closed lines exactly when one of them holds it. */
  lemma {:induction false} OccursInClosed(lines: seq<string>, rest: string, end: string)
    requires Marker(end)
    ensures (exists p :: 0 <= p < |Closed(lines)| && OccursAt(Closed(lines) + rest, end, p))
       <==> !NoneHolds(lines, end)
  {
    if lines != [] {
      var line, more := lines[0], lines[1..];
      var tail := Closed(more) + rest;
      var s := line + ("\n" + tail);
      assert Closed(lines) + rest == s;
      OccursInClosed(more, rest, end);
      assert lines == [line] + more;
      assert NoneHolds(lines, end) <==> !Occurs(line, end) && NoneHolds(more, end);
      assert |Closed(lines)| == |line| + 1 + |Closed(more)|;
      hide NoneHolds, Closed, OccursAt, Occurs, Marker;
      InClosedStep(line, tail, |Closed(more)|, end);
    }
  }

  lemma Shifted(s: string, pat: string, i: nat, q: nat)
    requires i <= |s|
    ensures OccursAt(s, pat, i + q) <==> OccursAt(s[i..], pat, q)
  {
    hide OccursAt;
    Pointwise(s, pat, i + q);
    Pointwise(s[i..], pat, q);
    assert forall k :: 0 <= k < |s| - i ==> s[i..][k] == s[i + k];
  }

  // ---------- A written text, part by part ----------

  datatype Layout = Layout(before: string, indent: string, above: string, last: string, rest: string) {
    function Indents(): nat { |before| + |indent| }
    function Own(): nat { Indents() + |above| }
    function Ends(): nat { Own() + |last| }

    ghost predicate Of(s: string) {
      && |s| == Ends() + |rest|
      && (forall k :: 0 <= k < |before| ==> s[k] == before[k])
      && (forall k :: 0 <= k < |indent| ==> s[|before| + k] == indent[k])
      && (forall k :: 0 <= k < |above| ==> s[Indents() + k] == above[k])
      && (forall k :: 0 <= k < |last| ==> s[Own() + k] == last[k])
      && s[Ends()..] == rest
    }
  }

  lemma Cat(a: string, b: string)
    ensures forall k :: 0 <= k < |a| ==> (a + b)[k] == a[k]
    ensures forall k :: 0 <= k < |b| ==> (a + b)[|a| + k] == b[k]
    ensures (a + b)[|a|..] == b
  {
  }

  lemma FrontParts(before: string, indent: string, more: string)
    ensures var s := (before + indent) + more;
            && (forall k :: 0 <= k < |before| ==> s[k] == before[k])
            && (forall k :: 0 <= k < |indent| ==> s[|before| + k] == indent[k])
  {
    Cat(before, indent);
    Cat(before + indent, more);
  }

  lemma DropTwice(s: string, i: nat, j: nat)
    requires i + j <= |s|
    ensures s[i + j..] == s[i..][j..]
  {
  }

  lemma BackParts(front: string, above: string, last: string, rest: string)
    ensures var s := front + (above + (last + rest));
            && (forall k :: 0 <= k < |above| ==> s[|front| + k] == above[k])
            && (forall k :: 0 <= k < |last| ==> s[|front| + |above| + k] == last[k])
            && s[|front| + |above| + |last|..] == rest
  {
    var tail := last + rest;
    var middle := above + tail;
    var s := front + middle;
    Cat(last, rest);
    Cat(above, tail);
    Cat(front, middle);
    forall k | 0 <= k < |last| ensures s[|front| + |above| + k] == last[k] {
      assert s[|front| + (|above| + k)] == middle[|above| + k];
    }
    DropTwice(s, |front|, |above|);
    DropTwice(s, |front| + |above|, |last|);
  }

  lemma LayoutOf(l: Layout)
    ensures l.Of((l.before + l.indent) + (l.above + (l.last + l.rest)))
  {
    var front := l.before + l.indent;
    var back := l.above + (l.last + l.rest);
    FrontParts(l.before, l.indent, back);
    BackParts(front, l.above, l.last, l.rest);
    assert |front| == l.Indents() && |back| == |l.above| + |l.last| + |l.rest|;
  }

  function LayoutFor(p: Place, start: string, end: string, lines: seq<string>): Layout {
    Layout(p.before, p.indent, Closed(Above(p.indent, start, lines)), p.indent + end, AfterText(p.after))
  }

  ghost predicate ClosesWith(above: string, start: string, body: string) {
    && |above| == |start| + 1 + |body|
    && (forall k :: 0 <= k < |start| ==> above[k] == start[k])
    && above[|start|] == '\n'
    && above[|start| + 1..] == body
  }

  lemma WrittenIsLaidOut(p: Place, start: string, end: string, lines: seq<string>)
    ensures LayoutFor(p, start, end, lines).Of(Render(p, start, end, lines))
    ensures ClosesWith(LayoutFor(p, start, end, lines).above, start, Closed(Indented(p.indent, lines)))
  {
    var l := LayoutFor(p, start, end, lines);
    RenderShape(p, start, end, lines);
    var body := Closed(Indented(p.indent, lines));
    assert Above(p.indent, start, lines)[1..] == Indented(p.indent, lines);
    assert l.above == start + ("\n" + body);
    hide Closed, Above, Render, AfterText, Indented, Layout.Of;
    assert l.last + l.rest == p.indent + end + AfterText(p.after);
    LayoutOf(l);
  }

  ghost predicate Breaks(s: string) {
    s != "" && s[|s| - 1] == '\n'
  }

  lemma {:induction false} ClosedEnds(lines: seq<string>)
    requires lines != []
    ensures Breaks(Closed(lines))
  {
    if |lines| == 1 {
      assert Closed(lines) == lines[0] + "\n";
    } else {
      ClosedEnds(lines[1..]);
    }
  }

  lemma WrittenParts(p: Place, start: string, end: string, lines: seq<string>)
    requires OneLine(p.indent) && OneLine(end)
    ensures
      var l := LayoutFor(p, start, end, lines);
      && l.Of(Render(p, start, end, lines))
      && ClosesWith(l.above, start, Closed(Indented(p.indent, lines)))
      && l.Indents() == |p.before| + |p.indent|
      && l.before == p.before && l.indent == p.indent && l.last == p.indent + end && OneLine(l.last)
      && l.above == Closed(Above(p.indent, start, lines)) && Breaks(l.above) && l.rest == AfterText(p.after)
    ensures Clear(p.indent, start, end, lines) <==> NoneHolds(Above(p.indent, start, lines), end)
  {
    WrittenIsLaidOut(p, start, end, lines);
    ClearIsAbove(p.indent, start, end, lines);
    ClosedEnds(Above(p.indent, start, lines));
    hide Closed, Above, Render, Layout.Of, AfterText, ClosesWith, Clear, NoneHolds;
  }

  lemma StartOfWritten(text: string, written: string, start: string, l: Layout, body: string, p: Place)
    requires Marker(start) && StartsAt(text, start, p) && l.Of(written) && ClosesWith(l.above, start, body)
    requires l.before == p.before && l.indent == p.indent
    ensures StartsAt(written, start, p)
  {
    var b, i := |p.before|, |p.before| + |p.indent|;
    Pointwise(text, start, i);
    hide OccursAt;
    assert forall k :: 0 <= k < b ==> text[k] == p.before[k];
    assert forall k :: 0 <= k < |p.indent| ==> text[b..i][k] == p.indent[k];
    forall k | 0 <= k < i + |start| ensures written[k] == text[k] {
      if k >= i {
        assert written[i + (k - i)] == l.above[k - i];
        assert text[i + (k - i)] == start[k - i];
      } else if k >= b {
        assert written[b + (k - b)] == p.indent[k - b] == text[k];
      }
    }
    StartStays(text, written, start, p);
  }

  lemma {:induction false} FirstAfter(s: string, tail: string, pat: string, i: nat, n: nat, m: nat)
    requires i <= |s| && n <= m
    requires forall q: nat :: OccursAt(s, pat, i + q) <==> OccursAt(tail, pat, q)
    requires OccursAt(tail, pat, m)
    ensures IndexOf(s, pat, i).Some?
    ensures var j := IndexOf(s, pat, i).value;
            if exists q :: 0 <= q < n && OccursAt(tail, pat, q) then j < i + n else i + n <= j <= i + m
  {
    hide OccursAt, IndexOf;
    assert OccursAt(s, pat, i + m);
    var j := IndexOf(s, pat, i).value;
    assert OccursAt(tail, pat, j - i) by {
      assert OccursAt(s, pat, i + (j - i));
    }
    if q :| 0 <= q < n && OccursAt(tail, pat, q) {
      assert OccursAt(s, pat, i + q);
    }
  }

  /** The end marker is next met on its own line exactly when no line above holds it. */
  lemma {:induction false} EndOfWritten(written: string, l: Layout, above: seq<string>, end: string)
    requires Marker(end) && l.Of(written) && l.above == Closed(above) && l.last == l.indent + end
    ensures IndexOf(written, end, l.Indents()).Some?
    ensures var j := IndexOf(written, end, l.Indents()).value;
            if NoneHolds(above, end) then l.Own() <= j < l.Ends() else j < l.Own()
  {
    var i, n := l.Indents(), |l.above|;
    var tail := written[i..];
    assert tail == l.above + tail[n..] by {
      assert forall k :: 0 <= k < n ==> tail[k] == written[i + k];
    }
    OccursInClosed(above, tail[n..], end);
    var m := n + |l.indent|;
    forall k | 0 <= k < |end| ensures tail[m + k] == end[k] {
      assert written[l.Own() + (|l.indent| + k)] == l.last[|l.indent| + k];
    }
    Pointwise(tail, end, m);
    hide OccursAt, Closed, NoneHolds, Layout.Of;
    forall q: nat ensures OccursAt(written, end, i + q) <==> OccursAt(tail, end, q) {
      Shifted(written, end, i, q);
    }
    FirstAfter(written, tail, end, i, n, m);
  }

  lemma {:induction false} LineEndIs(s: string, j: nat, e: nat)
    requires j <= e <= |s| && (forall k :: j <= k < e ==> s[k] != '\n') && (e < |s| ==> s[e] == '\n')
    ensures LineEnd(s, j) == if e < |s| then e + 1 else e
  {
    hide LineEnd;
  }

  lemma OneLineLast(s: string, l: Layout, j: nat)
    requires l.Of(s) && OneLine(l.last) && l.Own() <= j < l.Ends()
    ensures l.Ends() <= |s| && forall k :: j <= k < l.Ends() ==> s[k] != '\n'
  {
    forall k | j <= k < l.Ends() ensures s[k] != '\n' {
      assert s[l.Own() + (k - l.Own())] == l.last[k - l.Own()];
    }
  }

  lemma {:induction false} RestOfLine(s: string, l: Layout, j: nat, after: string)
    requires l.Of(s) && OneLine(l.last) && l.rest == AfterText(after) && l.Own() <= j < l.Ends()
    ensures s[LineEnd(s, j)..] == after
  {
    var e := l.Ends();
    OneLineLast(s, l, j);
    assert s[e..] == AfterText(after);
    hide Layout.Of, LineEnd, OneLine;
    if after != "" {
      assert s[e] == s[e..][0];
      DropTwice(s, e, 1);
    }
    LineEndIs(s, j, e);
  }

  lemma {:induction false} StartOfOwnLine(s: string, l: Layout, j: nat)
    requires l.Of(s) && OneLine(l.last) && l.Own() <= j < l.Ends()
    requires Breaks(l.above)
    ensures LineStart(s, j) == l.Own()
  {
    var own := l.Own();
    forall k | own <= k <= j ensures s[k] != '\n' {
      assert s[own + (k - own)] == l.last[k - own];
    }
    assert s[l.Indents() + (|l.above| - 1)] == '\n';
  }

  lemma {:induction false} LocateAgain(text: string, start: string, end: string, p: Place)
    requires Marker(start) && StartsAt(text, start, p)
    requires IndexOf(text, end, |p.before| + |p.indent|).Some?
    ensures
      var j := IndexOf(text, end, |p.before| + |p.indent|).value;
      Locate(text, start, end) == Ok(Place(p.before, p.indent, text[LineEnd(text, j)..]))
  {
    hide IndexOf, LineEnd, LineStart, OccursAt;
    StartFound(text, start, p);
    assert text[..|p.before|] == p.before;
    hide StartsAt, Marker, OneLine;
  }

  function SplitClosed(s: string): seq<string>
    decreases |s|
  {
    if s == "" then []
    else
      var n := LineEnd(s, 0);
      [if s[n - 1] == '\n' then s[..n - 1] else s[..n]] + SplitClosed(s[n..])
  }

  function Unindented(indent: string, lines: seq<string>): (r: seq<string>)
    ensures |r| == |lines|
  {
    seq(|lines|, k requires 0 <= k < |lines| =>
      if OccursAt(lines[k], indent, 0) then lines[k][|indent|..] else lines[k])
  }

  /** The lines between the two marker lines. */
  function ReadBlockLines(text: string, start: string, end: string): Option<seq<string>> {
    var i := IndexOf(text, start, 0);
    if i.None? then None
    else
      var j := IndexOf(text, end, i.value);
      if j.None? then None
      else
        var lineStart := LineStart(text, i.value);
        var from, to := LineEnd(text, i.value), LineStart(text, j.value);
        var indent := if lineStart <= i.value then text[lineStart..i.value] else "";
        Some(if from <= to then Unindented(indent, SplitClosed(text[from..to])) else [])
  }

  ghost predicate Shows(s: string, from: nat, to: nat, body: string) {
    from <= to <= |s| && s[from..to] == body
  }

  lemma {:induction false} ReadAgain(
    text: string, start: string, end: string, p: Place, j: nat, from: nat, to: nat, body: string)
    requires Marker(start) && StartsAt(text, start, p)
    requires |p.before| + |p.indent| <= |text| && j <= |text|
    requires IndexOf(text, end, |p.before| + |p.indent|).Some?
    requires j == IndexOf(text, end, |p.before| + |p.indent|).value
    requires from == LineEnd(text, |p.before| + |p.indent|) && to == LineStart(text, j)
    requires Shows(text, from, to, body)
    ensures ReadBlockLines(text, start, end) == Some(Unindented(p.indent, SplitClosed(body)))
  {
    hide IndexOf, LineEnd, LineStart, OccursAt, Unindented, SplitClosed;
    StartFound(text, start, p);
    hide StartsAt, Marker, OneLine;
  }

  lemma StartIsIndented(text: string, start: string, p: Place)
    requires StartsAt(text, start, p)
    ensures OneLine(p.indent)
  {
  }

  lemma {:induction false} LineOfAbove(s: string, l: Layout, j: nat)
    requires l.Of(s) && j < l.Own() && Breaks(l.above) && l.last != ""
    ensures LineEnd(s, j) <= |s| && |s[LineEnd(s, j)..]| > |l.rest|
  {
    assert s[l.Indents() + (|l.above| - 1)] == '\n';
  }

  /** A written block is found again, whole when it is clear and cut short when it is not. */
  lemma Relocate(text: string, start: string, end: string, lines: seq<string>, p: Place)
    requires Marker(start) && Marker(end) && StartsAt(text, start, p)
    ensures
      var again := Locate(Render(p, start, end, lines), start, end);
      && again.Ok? && again.value.before == p.before && again.value.indent == p.indent
      && if Clear(p.indent, start, end, lines) then again.value.after == p.after
         else |AfterText(again.value.after)| > |AfterText(p.after)|
  {
    hide Render, Clear, Closed, Above, Locate, IndexOf, StartsAt, Layout.Of, NoneHolds, LineEnd, ClosesWith,
      LayoutFor, AfterText, Breaks, OccursAt;
    assert OneLine(p.indent) by { StartIsIndented(text, start, p); }
    var written := Render(p, start, end, lines);
    var above := Above(p.indent, start, lines);
    var l := LayoutFor(p, start, end, lines);
    WrittenParts(p, start, end, lines);
    StartOfWritten(text, written, start, l, Closed(Indented(p.indent, lines)), p);
    EndOfWritten(written, l, above, end);
    LocateAgain(written, start, end, p);
    var j := IndexOf(written, end, l.Indents()).value;
    if NoneHolds(above, end) {
      RestOfLine(written, l, j, p.after);
    } else {
      LineOfAbove(written, l, j);
    }
  }

  lemma RenderLength(p: Place, start: string, end: string, lines: seq<string>)
    ensures |Render(p, start, end, lines)|
         == |p.before| + 2 * |p.indent| + |Closed(Above(p.indent, start, lines))| + |end| + |AfterText(p.after)|
  {
    RenderShape(p, start, end, lines);
  }

  /** A second write replaces the first exactly when the end marker shows up in none of the first one's lines. */
  lemma SecondWriteReplacesIff(
    text: string, start: string, end: string, first: seq<string>, second: seq<string>, written: string)
    requires Marker(start) && Marker(end)
    requires ReplaceBlockLines(text, start, end, first) == Ok(written)
    ensures ReplaceBlockLines(written, start, end, second) == ReplaceBlockLines(text, start, end, second)
       <==> Clear(Locate(text, start, end).value.indent, start, end, first)
  {
    var p := Locate(text, start, end).value;
    LocateStart(text, start, end);
    Relocate(text, start, end, first, p);
    hide Locate, Clear, StartsAt;
    var q := Locate(written, start, end).value;
    RenderLength(p, start, end, second);
    RenderLength(q, start, end, second);
  }

  /** Writing the same lines again changes nothing exactly under the same condition. */
  lemma RewriteIsStableIff(text: string, start: string, end: string, lines: seq<string>, written: string)
    requires Marker(start) && Marker(end)
    requires ReplaceBlockLines(text, start, end, lines) == Ok(written)
    ensures ReplaceBlockLines(written, start, end, lines) == Ok(written)
       <==> Clear(Locate(text, start, end).value.indent, start, end, lines)
  {
    SecondWriteReplacesIff(text, start, end, lines, lines, written);
  }

  // ---------- Reading back ----------

  lemma FirstLine(line: string, rest: string)
    requires OneLine(line)
    ensures var s := line + ("\n" + rest);
            LineEnd(s, 0) == |line| + 1 && s[|line|] == '\n' && s[..|line|] == line && s[|line| + 1..] == rest
  {
    var s := line + ("\n" + rest);
    Cat(line, "\n" + rest);
    assert s[|line| + 0] == '\n';
    DropTwice(s, |line|, 1);
    var n := LineEnd(s, 0);
    hide LineEnd;
    assert n < |s| ==> s[n - 1] == '\n';
  }

  lemma {:induction false} SplitUndoesClosed(lines: seq<string>)
    requires forall k :: 0 <= k < |lines| ==> OneLine(lines[k])
    ensures SplitClosed(Closed(lines)) == lines
  {
    if lines != [] {
      hide OneLine, LineEnd;
      FirstLine(lines[0], Closed(lines[1..]));
      SplitUndoesClosed(lines[1..]);
      var s := Closed(lines);
      assert s == lines[0] + ("\n" + Closed(lines[1..]));
      hide Closed;
      assert SplitClosed(s) == [lines[0]] + SplitClosed(s[|lines[0]| + 1..]);
      hide SplitClosed;
    }
  }

  lemma UnindentUndoesIndent(indent: string, lines: seq<string>)
    ensures Unindented(indent, Indented(indent, lines)) == lines
  {
    forall k | 0 <= k < |lines| ensures Unindented(indent, Indented(indent, lines))[k] == lines[k] {
      var line := indent + lines[k];
      assert line[..|indent|] == indent && line[|indent|..] == lines[k];
    }
  }

  lemma BodyReadsBack(indent: string, lines: seq<string>)
    requires OneLine(indent) && forall k :: 0 <= k < |lines| ==> OneLine(lines[k])
    ensures Unindented(indent, SplitClosed(Closed(Indented(indent, lines)))) == lines
  {
    SplitUndoesClosed(Indented(indent, lines));
    UnindentUndoesIndent(indent, lines);
  }

  lemma {:induction false} MarkerLineEnds(written: string, l: Layout, start: string, body: string)
    requires l.Of(written) && OneLine(start) && ClosesWith(l.above, start, body)
    ensures LineEnd(written, l.Indents()) == l.Indents() + |start| + 1
  {
    var i := l.Indents();
    forall k | i <= k < i + |start| ensures written[k] != '\n' {
      assert written[i + (k - i)] == l.above[k - i];
    }
    assert written[i + |start|] == '\n';
  }

  lemma SliceTwice(s: string, i: nat, j: nat, n: nat)
    requires i + n <= j <= |s|
    ensures s[i + n..j] == s[i..j][n..]
  {
  }

  lemma {:induction false} BodyOfWritten(written: string, l: Layout, start: string, body: string)
    requires l.Of(written) && OneLine(start) && ClosesWith(l.above, start, body)
    ensures LineEnd(written, l.Indents()) == l.Indents() + |start| + 1 <= l.Own() <= |written|
    ensures Shows(written, l.Indents() + |start| + 1, l.Own(), body)
  {
    hide LineEnd;
    MarkerLineEnds(written, l, start, body);
    var i, own, n := l.Indents(), l.Own(), |start| + 1;
    assert written[i..own] == l.above;
    hide Layout.Of;
    SliceTwice(written, i, own, n);
  }

  /** The marker lines of a written text, and what is between them. */
  lemma MarkersOfWritten(text: string, start: string, end: string, lines: seq<string>, p: Place)
    returns (j: nat, from: nat, to: nat)
    requires Marker(start) && Marker(end) && StartsAt(text, start, p)
    requires Clear(p.indent, start, end, lines)
    ensures
      var written := Render(p, start, end, lines);
      var i := |p.before| + |p.indent|;
      && StartsAt(written, start, p) && i <= |written|
      && IndexOf(written, end, i).Some? && j == IndexOf(written, end, i).value
      && from == LineEnd(written, i) && j <= |written| && to == LineStart(written, j)
      && Shows(written, from, to, Closed(Indented(p.indent, lines)))
  {
    StartIsIndented(text, start, p);
    hide Clear, Above, Closed, Indented, IndexOf, Render, Layout.Of, NoneHolds, StartsAt, AfterText,
      LayoutFor, LineStart, LineEnd, ClosesWith, OccursAt, Breaks, OneLine, Shows;
    hide Layout.Indents, Layout.Own, Layout.Ends;
    var written := Render(p, start, end, lines);
    var l := LayoutFor(p, start, end, lines);
    var above, body := Above(p.indent, start, lines), Closed(Indented(p.indent, lines));
    WrittenParts(p, start, end, lines);
    StartOfWritten(text, written, start, l, body, p);
    EndOfWritten(written, l, above, end);
    j := IndexOf(written, end, l.Indents()).value;
    StartOfOwnLine(written, l, j);
    BodyOfWritten(written, l, start, body);
    from, to := l.Indents() + |start| + 1, l.Own();
  }

  lemma WrittenReads(text: string, start: string, end: string, lines: seq<string>, p: Place)
    requires Marker(start) && Marker(end) && StartsAt(text, start, p)
    requires Clear(p.indent, start, end, lines)
    ensures ReadBlockLines(Render(p, start, end, lines), start, end)
         == Some(Unindented(p.indent, SplitClosed(Closed(Indented(p.indent, lines)))))
  {
    hide Clear, Closed, Indented, IndexOf, Render, Unindented, StartsAt, LineStart, LineEnd, SplitClosed,
      ReadBlockLines, Marker, Shows;
    var j, from, to := MarkersOfWritten(text, start, end, lines, p);
    ReadAgain(Render(p, start, end, lines), start, end, p, j, from, to, Closed(Indented(p.indent, lines)));
  }

  /** What is written between clear markers is what is read. */
  lemma WriteThenRead(text: string, start: string, end: string, lines: seq<string>, written: string)
    requires Marker(start) && Marker(end)
    requires forall k :: 0 <= k < |lines| ==> OneLine(lines[k])
    requires ReplaceBlockLines(text, start, end, lines) == Ok(written)
    requires Clear(Locate(text, start, end).value.indent, start, end, lines)
    ensures ReadBlockLines(written, start, end) == Some(lines)
  {
    hide Locate, Render, Clear, ReadBlockLines, StartsAt, Marker, Unindented, SplitClosed, Closed, Indented;
    var p := Locate(text, start, end).value;
    LocateStart(text, start, end);
    StartIsIndented(text, start, p);
    WrittenReads(text, start, end, lines, p);
    BodyReadsBack(p.indent, lines);
  }

  // ---------- What is left alone, and when it fails ----------

  /**
   * The text up to the marker line and everything after the end marker's line stay;
   * of a final newline after the end marker, and only of that, nothing is left.
   */
  lemma {:induction false} RestIsUntouched(
    text: string, start: string, end: string, lines: seq<string>, written: string)
    requires Marker(start)
    requires ReplaceBlockLines(text, start, end, lines) == Ok(written)
    ensures
      var p := Locate(text, start, end).value;
      var i := IndexOf(text, start, 0).value;
      var j := IndexOf(text, end, i).value;
      && i <= j && p.before + p.indent == text[..i]
      && p.after == text[LineEnd(text, j)..]
      && written == text[..i]
           + (Closed(Above(p.indent, start, lines)) + (p.indent + end + AfterText(text[LineEnd(text, j)..])))
  {
    var p := Locate(text, start, end).value;
    var i := IndexOf(text, start, 0).value;
    LocateStart(text, start, end);
    RenderShape(p, start, end, lines);
    assert text[..i] == text[..|p.before|] + text[|p.before|..i];
    hide IndexOf, OccursAt, LineEnd, LineStart, Render, Closed, Above, AfterText, StartsAt;
  }

  /** It fails exactly when a marker is missing, the end marker being sought from the start marker on. */
  lemma {:induction false} FailsIff(text: string, start: string, end: string, lines: seq<string>)
    ensures ReplaceBlockLines(text, start, end, lines) == Err(MissingStart(start))
       <==> !Occurs(text, start)
    ensures ReplaceBlockLines(text, start, end, lines) == Err(MissingEnd(end))
       <==> Occurs(text, start) && forall j :: IndexOf(text, start, 0).GetOr(0) <= j ==> !OccursAt(text, end, j)
  {
    if IndexOf(text, start, 0).None? {
      assert !Occurs(text, start);
    }
  }
}
