// The quote-aware scanners of the temp-path guardrail: a parenthesis matcher and an argument splitter.
module ArgumentScanner {
  import opened Wrappers
  import Text

  // ---- Quotes ----

  datatype Quoting = Quoting(quote: Option<char>, escaped: bool)

  const UNQUOTED := Quoting(None, false)

  predicate IsQuoteChar(ch: char) {
    ch == '\'' || ch == '"' || ch == '`'
  }

  /** How one character changes the quoting, whether it opens, continues or closes a quotation. */
  function NextQuoting(q: Quoting, ch: char): Quoting {
    if q.quote.None? then if IsQuoteChar(ch) then q.(quote := Some(ch)) else q
    else if q.escaped then q.(escaped := false)
    else if ch == '\\' then q.(escaped := true)
    else if ch == q.quote.value then q.(quote := None)
    else q
  }

  class QuoteScanState {
    var quote: Option<char>
    var escaped: bool

    function Abs(): Quoting
      reads this
    {
      Quoting(quote, escaped)
    }

    constructor ()
      ensures Abs() == UNQUOTED
    {
      quote, escaped := None, false;
    }

    method BeginQuotedSection(ch: char) returns (began: bool)
      modifies this
      ensures began == IsQuoteChar(ch)
      ensures Abs() == if began then old(Abs()).(quote := Some(ch)) else old(Abs())
    {
      if ch != '\'' && ch != '"' && ch != '`' {
        return false;
      }
      quote := Some(ch);
      return true;
    }

    method ConsumeQuotedChar(ch: char) returns (consumed: bool)
      modifies this
      ensures consumed == old(quote).Some?
      ensures Abs() == if consumed then NextQuoting(old(Abs()), ch) else old(Abs())
    {
      if quote.None? {
        return false;
      }
      if escaped {
        escaped := false;
        return true;
      }
      if ch == '\\' {
        escaped := true;
        return true;
      }
      if ch == quote.value {
        quote := None;
      }
      return true;
    }
  }

  function QuotingAfter(s: string): Quoting {
    if s == "" then UNQUOTED else NextQuoting(QuotingAfter(s[..|s| - 1]), s[|s| - 1])
  }

  /** A character that is neither inside a quotation nor opens one. */
  predicate Bare(q: Quoting, ch: char) {
    q.quote.None? && !IsQuoteChar(ch)
  }

  function Delta(q: Quoting, ch: char): int {
    if !Bare(q, ch) then 0 else if ch == '(' then 1 else if ch == ')' then -1 else 0
  }

  /** Bare opening parentheses minus bare closing ones. */
  function Depth(s: string): int {
    if s == "" then 0
    else
      var before, ch := s[..|s| - 1], s[|s| - 1];
      Depth(before) + Delta(QuotingAfter(before), ch)
  }

  // ---- findMatchingParen ----

  /** The text between an opening parenthesis and a later position. */
  function Body(source: string, openIndex: nat, end: int): string {
    if openIndex + 1 <= end <= |source| then source[openIndex + 1..end] else ""
  }

  /** The text after an opening parenthesis stays inside it up to position `end`. */
  ghost predicate StaysOpen(source: string, openIndex: nat, end: int) {
    forall j :: openIndex < j <= end ==> Depth(Body(source, openIndex, j)) >= 0
  }

  lemma NothingRead(source: string, openIndex: nat)
    ensures QuotingAfter(Body(source, openIndex, openIndex + 1)) == UNQUOTED
    ensures Depth(Body(source, openIndex, openIndex + 1)) == 0
    ensures openIndex >= |source| ==> StaysOpen(source, openIndex, |source|)
  {
    assert Body(source, openIndex, openIndex + 1) == "";
  }

  lemma BodyGrows(source: string, openIndex: nat, i: int)
    requires openIndex + 1 <= i < |source|
    ensures var before, after := Body(source, openIndex, i), Body(source, openIndex, i + 1);
            && QuotingAfter(after) == NextQuoting(QuotingAfter(before), source[i])
            && Depth(after) == Depth(before) + Delta(QuotingAfter(before), source[i])
  {
    assert Body(source, openIndex, i + 1)[..i - openIndex - 1] == Body(source, openIndex, i);
  }

  method FindMatchingParen(source: string, openIndex: nat) returns (r: int)
    ensures r == -1 <==> StaysOpen(source, openIndex, |source|)
    ensures r != -1 ==>
              && openIndex < r < |source| && source[r] == ')'
              && Bare(QuotingAfter(Body(source, openIndex, r)), ')')
              && StaysOpen(source, openIndex, r)
              && Depth(Body(source, openIndex, r)) == 0 && Depth(Body(source, openIndex, r + 1)) == -1
  {
    hide Depth, QuotingAfter, Body;
    NothingRead(source, openIndex);
    var depth := 1;
    var quoteState := new QuoteScanState();
    var i := openIndex + 1;
    while i < |source|
      invariant openIndex + 1 <= i
      invariant depth == 1 + Depth(Body(source, openIndex, i))
      invariant quoteState.Abs() == QuotingAfter(Body(source, openIndex, i))
      invariant depth > 0 && StaysOpen(source, openIndex, i)
      decreases |source| - i
    {
      var ch := source[i];
      BodyGrows(source, openIndex, i);
      i := i + 1;
      var consumed := quoteState.ConsumeQuotedChar(ch);
      if consumed {
        continue;
      }
      var began := quoteState.BeginQuotedSection(ch);
      if began {
        continue;
      }
      if ch == '(' {
        depth := depth + 1;
        continue;
      }
      if ch == ')' {
        depth := depth - 1;
        if depth == 0 {
          return i - 1;
        }
      }
    }
    return -1;
  }

  // ---- splitTopLevelArguments ----

  /** Quoting and the three clamped nesting counters. */
  datatype Nesting = Nesting(quoting: Quoting, paren: nat, bracket: nat, brace: nat)

  const OUTSIDE := Nesting(UNQUOTED, 0, 0, 0)

  function Lower(n: nat): nat {
    if n > 0 then n - 1 else 0
  }

  function NextNesting(n: Nesting, ch: char): Nesting {
    if !Bare(n.quoting, ch) then n.(quoting := NextQuoting(n.quoting, ch))
    else match ch
      case '(' => n.(paren := n.paren + 1)
      case ')' => n.(paren := Lower(n.paren))
      case '[' => n.(bracket := n.bracket + 1)
      case ']' => n.(bracket := Lower(n.bracket))
      case '{' => n.(brace := n.brace + 1)
      case '}' => n.(brace := Lower(n.brace))
      case _ => n
  }

  function NestingAfter(s: string): (r: Nesting)
    ensures r.quoting.quote.None? ==> !r.quoting.escaped
  {
    if s == "" then OUTSIDE else NextNesting(NestingAfter(s[..|s| - 1]), s[|s| - 1])
  }

  predicate TopLevelComma(n: Nesting, ch: char) {
    ch == ',' && Bare(n.quoting, ch) && n.paren == 0 && n.bracket == 0 && n.brace == 0
  }

  /** Append a character to the last piece. */
  function Grow(pieces: seq<string>, ch: char): (r: seq<string>)
    requires pieces != []
    ensures r != []
  {
    pieces[..|pieces| - 1] + [pieces[|pieces| - 1] + [ch]]
  }

  /** The text between top-level commas, before trimming. */
  function Pieces(s: string): (r: seq<string>)
    ensures r != []
  {
    if s == "" then [""]
    else
      var before, ch := Pieces(s[..|s| - 1]), s[|s| - 1];
      if TopLevelComma(NestingAfter(s[..|s| - 1]), ch) then before + [""]
      else Grow(before, ch)
  }

  lemma {:induction false} OneMoreChar(s: string, ch: char)
    ensures Pieces(s + [ch]) == if TopLevelComma(NestingAfter(s), ch) then Pieces(s) + [""] else Grow(Pieces(s), ch)
    ensures NestingAfter(s + [ch]) == NextNesting(NestingAfter(s), ch)
  {
    assert (s + [ch])[..|s|] == s;
  }

  function TrimAll(s: seq<string>): (r: seq<string>)
    ensures |r| == |s| && forall i :: 0 <= i < |s| ==> r[i] == Text.Trim(s[i])
  {
    if s == [] then [] else TrimAll(s[..|s| - 1]) + [Text.Trim(s[|s| - 1])]
  }

  /** All pieces trimmed; a blank last piece is dropped. */
  function Arguments(s: string): seq<string> {
    var pieces := Pieces(s);
    var n := |pieces| - 1;
    TrimAll(pieces[..n]) + if Text.Trim(pieces[n]) != "" then [Text.Trim(pieces[n])] else []
  }

  lemma NothingYet()
    ensures Pieces("") == [""] && NestingAfter("") == OUTSIDE && TrimAll([]) == []
  {
  }

  lemma {:induction false} GrowOrCut(pieces: seq<string>, ch: char)
    requires pieces != []
    ensures var n := |pieces| - 1;
            && Grow(pieces, ch)[..n] == pieces[..n] && Grow(pieces, ch)[n] == pieces[n] + [ch]
            && |Grow(pieces, ch)| == n + 1
            && (pieces + [""])[..n + 1] == pieces
            && TrimAll(pieces) == TrimAll(pieces[..n]) + [Text.Trim(pieces[n])]
  {
  }

  method SplitTopLevelArguments(source: string) returns (out: seq<string>)
    ensures out == Arguments(source)
  {
    hide Pieces, NestingAfter, TrimAll, Text.Trim, Grow;
    out := [];
    var current := "";
    var parenDepth, bracketDepth, braceDepth := 0, 0, 0;
    var quoteState := new QuoteScanState();
    var i := 0;
    ghost var pieces := [""];
    assert source[..0] == "";
    NothingYet();
    while i < |source|
      invariant i <= |source| && parenDepth >= 0 && bracketDepth >= 0 && braceDepth >= 0
      invariant Nesting(quoteState.Abs(), parenDepth, bracketDepth, braceDepth) == NestingAfter(source[..i])
      invariant pieces == Pieces(source[..i])
      invariant out == TrimAll(pieces[..|pieces| - 1]) && current == pieces[|pieces| - 1]
      decreases |source| - i
    {
      var ch := source[i];
      assert source[..i + 1] == source[..i] + [ch];
      OneMoreChar(source[..i], ch);
      ghost var grown, cut := Grow(pieces, ch), pieces + [""];
      GrowOrCut(pieces, ch);
      i := i + 1;
      if quoteState.quote.Some? {
        current := current + [ch];
        var _ := quoteState.ConsumeQuotedChar(ch);
        pieces := grown;
        continue;
      }
      var began := quoteState.BeginQuotedSection(ch);
      if began {
        current := current + [ch];
        pieces := grown;
        continue;
      }
      if ch == ',' && parenDepth == 0 && bracketDepth == 0 && braceDepth == 0 {
        out := out + [Text.Trim(current)];
        current := "";
        pieces := cut;
        continue;
      }
      if ch == '(' {
        parenDepth := parenDepth + 1;
      } else if ch == ')' {
        if parenDepth > 0 {
          parenDepth := parenDepth - 1;
        }
      } else if ch == '[' {
        bracketDepth := bracketDepth + 1;
      } else if ch == ']' {
        if bracketDepth > 0 {
          bracketDepth := bracketDepth - 1;
        }
      } else if ch == '{' {
        braceDepth := braceDepth + 1;
      } else if ch == '}' {
        if braceDepth > 0 {
          braceDepth := braceDepth - 1;
        }
      }
      current := current + [ch];
      pieces := grown;
    }
    assert source[..|source|] == source;
    if Text.Trim(current) != "" {
      out := out + [Text.Trim(current)];
    }
  }

  // ---- The two scanners agree ----

  /** The splitter never has to clamp a closing parenthesis. */
  ghost predicate ClampFree(s: string) {
    forall i :: 0 <= i < |s| && s[i] == ')' && Bare(NestingAfter(s[..i]).quoting, ')') ==>
      NestingAfter(s[..i]).paren > 0
  }

  lemma {:induction false} OneMoreDepth(s: string, ch: char)
    ensures QuotingAfter(s + [ch]) == NextQuoting(QuotingAfter(s), ch)
    ensures Depth(s + [ch]) == Depth(s) + Delta(QuotingAfter(s), ch)
  {
    assert (s + [ch])[..|s|] == s;
  }

  ghost predicate NeverNegative(s: string) {
    forall j :: 0 <= j <= |s| ==> Depth(s[..j]) >= 0
  }

  lemma NeverNegativePrefix(s: string, i: nat)
    requires NeverNegative(s) && i <= |s|
    ensures NeverNegative(s[..i]) && Depth(s[..i]) >= 0
  {
    hide Depth;
    assert forall j :: 0 <= j <= i ==> s[..i][..j] == s[..j];
  }

  lemma {:induction false} NestingMatches(s: string)
    requires NeverNegative(s)
    ensures NestingAfter(s).quoting == QuotingAfter(s) && NestingAfter(s).paren == Depth(s)
  {
    hide NestingAfter, Depth, QuotingAfter, NeverNegative;
    if s == "" {
      NothingYet();
      NothingRead("", 0);
    } else {
      var n := |s| - 1;
      NeverNegativePrefix(s, n);
      NestingMatches(s[..n]);
      NeverNegativePrefix(s, n + 1);
      assert s == s[..n] + [s[n]] == s[..n + 1];
      OneMoreChar(s[..n], s[n]);
      OneMoreDepth(s[..n], s[n]);
    }
  }

  /** While the depth never goes negative, the two scanners see the same quotes and parentheses. */
  lemma {:induction false} ScannersAgree(s: string)
    requires NeverNegative(s)
    ensures NestingAfter(s).quoting == QuotingAfter(s) && NestingAfter(s).paren == Depth(s)
    ensures ClampFree(s)
  {
    hide NestingAfter, Depth, QuotingAfter, NeverNegative;
    NestingMatches(s);
    forall i | 0 <= i < |s| && s[i] == ')' && Bare(NestingAfter(s[..i]).quoting, ')')
      ensures NestingAfter(s[..i]).paren > 0
    {
      NeverNegativePrefix(s, i);
      NeverNegativePrefix(s, i + 1);
      NestingMatches(s[..i]);
      assert s[..i + 1] == s[..i] + [')'];
      OneMoreDepth(s[..i], ')');
    }
  }

  /**
    * On the slice between a parenthesis and the match found for it, the splitter
    * ends outside every quotation and parenthesis, and never used its clamp.
    */
  lemma SplitterBalancesMatch(source: string, openIndex: nat, close: int)
    requires openIndex < close < |source|
    requires Bare(QuotingAfter(Body(source, openIndex, close)), ')') && StaysOpen(source, openIndex, close)
    requires Depth(Body(source, openIndex, close)) == 0
    ensures var slice := source[openIndex + 1..close];
            NestingAfter(slice).quoting == UNQUOTED && NestingAfter(slice).paren == 0 && ClampFree(slice)
  {
    var slice := source[openIndex + 1..close];
    forall j | 0 <= j <= |slice| ensures Depth(slice[..j]) >= 0 {
      assert slice[..j] == Body(source, openIndex, openIndex + 1 + j);
    }
    ScannersAgree(slice);
  }

  // ---- Splitting undoes joining ----

  function JoinArguments(args: seq<string>): string {
    if args == [] then "" else if |args| == 1 then args[0] else args[0] + "," + JoinArguments(args[1..])
  }

  /** Scanned on its own, the text has no comma at top level. */
  ghost predicate OnePiece(s: string) {
    Pieces(s) == [s]
  }

  /** What makes a list of arguments survive a join and a split. */
  ghost predicate Splittable(args: seq<string>) {
    && (forall i :: 0 <= i < |args| ==> Text.Trimmed(args[i]) && OnePiece(args[i]))
    && (forall i :: 0 <= i < |args| - 1 ==> NestingAfter(args[i]) == OUTSIDE)
    && (args != [] ==> args[|args| - 1] != "")
  }

  lemma {:induction false} NestingRestarts(s: string, t: string)
    requires NestingAfter(s) == OUTSIDE
    ensures NestingAfter(s + t) == NestingAfter(t)
    decreases |t|
  {
    hide NestingAfter, NextNesting;
    if t == "" {
      assert s + t == s;
      NothingYet();
    } else {
      var u, ch := t[..|t| - 1], t[|t| - 1];
      NestingRestarts(s, u);
      OneMoreChar(s + u, ch);
      OneMoreChar(u, ch);
      assert s + t == s + u + [ch] && t == u + [ch];
    }
  }

  /** A self-contained piece, a comma, and more text: the comma cuts. */
  lemma {:induction false} PiecesAfterComma(s: string, t: string)
    requires NestingAfter(s) == OUTSIDE && OnePiece(s)
    ensures Pieces(s + "," + t) == [s] + Pieces(t)
    decreases |t|
  {
    hide Pieces, NestingAfter;
    OneMoreChar(s, ',');
    var head := s + ",";
    if t == "" {
      assert head + t == head && head == s + [','];
      NothingYet();
    } else {
      var u, ch := t[..|t| - 1], t[|t| - 1];
      PiecesAfterComma(s, u);
      NestingRestarts(head, u);
      OneMoreChar(head + u, ch);
      OneMoreChar(u, ch);
      assert head + t == head + u + [ch] && t == u + [ch];
      assert Grow([s] + Pieces(u), ch) == [s] + Grow(Pieces(u), ch);
    }
  }

  lemma {:induction false} PiecesOfJoin(args: seq<string>)
    requires args != [] && Splittable(args)
    ensures Pieces(JoinArguments(args)) == args
  {
    hide Pieces, NestingAfter, Text.Trimmed;
    if |args| > 1 {
      assert Splittable(args[1..]);
      PiecesOfJoin(args[1..]);
      PiecesAfterComma(args[0], JoinArguments(args[1..]));
    }
  }

  /** Every piece is one piece on its own, and all but the last are self-contained. */
  lemma {:induction false} PiecesAreSelfContained(s: string)
    ensures var p := Pieces(s);
            && (forall i :: 0 <= i < |p| ==> OnePiece(p[i]))
            && (forall i :: 0 <= i < |p| - 1 ==> NestingAfter(p[i]) == OUTSIDE)
            && NestingAfter(p[|p| - 1]) == NestingAfter(s)
  {
    hide Pieces, NestingAfter;
    NothingYet();
    if s != "" {
      var before, ch := s[..|s| - 1], s[|s| - 1];
      PiecesAreSelfContained(before);
      assert s == before + [ch];
      OneMoreChar(before, ch);
      var p := Pieces(before);
      OneMoreChar(p[|p| - 1], ch);
    }
  }

  lemma {:induction false} JoinAppend(args: seq<string>, last: string)
    ensures JoinArguments(args + [last]) == if args == [] then last else JoinArguments(args) + "," + last
  {
    if |args| > 1 {
      assert (args + [last])[1..] == args[1..] + [last];
      JoinAppend(args[1..], last);
    }
  }

  lemma {:induction false} JoinOfPieces(s: string)
    ensures JoinArguments(Pieces(s)) == s
  {
    hide Pieces, NestingAfter, JoinArguments;
    NothingYet();
    JoinAppend([], "");
    assert [] + [""] == [""];
    if s != "" {
      var before, ch := s[..|s| - 1], s[|s| - 1];
      JoinOfPieces(before);
      assert s == before + [ch];
      OneMoreChar(before, ch);
      var p := Pieces(before);
      var n := |p| - 1;
      assert p == p[..n] + [p[n]];
      JoinAppend(p[..n], p[n]);
      JoinAppend(p[..n], p[n] + [ch]);
      JoinAppend(p, "");
    }
  }

  function TotalLength(args: seq<string>): nat {
    if args == [] then 0 else TotalLength(args[..|args| - 1]) + |args[|args| - 1]|
  }

  lemma {:induction false} JoinLength(args: seq<string>)
    requires args != []
    ensures |JoinArguments(args)| == TotalLength(args) + |args| - 1
  {
    var n := |args| - 1;
    assert args == args[..n] + [args[n]];
    JoinAppend(args[..n], args[n]);
    if n > 0 {
      JoinLength(args[..n]);
    }
  }

  lemma {:induction false} TrimLength(args: seq<string>)
    ensures TotalLength(TrimAll(args)) <= TotalLength(args)
    ensures TotalLength(TrimAll(args)) == TotalLength(args) ==> TrimAll(args) == args
  {
    hide Text.TrimStart, Text.TrimEnd, Text.Trim;
    if args != [] {
      var n := |args| - 1;
      TrimLength(args[..n]);
      Text.TrimFixes(args[n]);
      assert TrimAll(args)[..n] == TrimAll(args[..n]);
    }
  }

  lemma {:induction false} TotalLast(p: seq<string>)
    requires p != []
    ensures TotalLength(p) == TotalLength(p[..|p| - 1]) + |p[|p| - 1]|
  {
  }

  lemma {:induction false} TrimLast(p: seq<string>)
    requires p != []
    ensures TrimAll(p) == TrimAll(p[..|p| - 1]) + [Text.Trim(p[|p| - 1])]
  {
  }

  /** If the split gives the arguments back, its pieces were the arguments to begin with. */
  lemma {:induction false} RoundTripMeansPieces(args: seq<string>)
    requires args != [] && Arguments(JoinArguments(args)) == args
    ensures Pieces(JoinArguments(args)) == args && Text.Trim(args[|args| - 1]) != ""
  {
    hide Pieces, Text.Trim, TrimAll, JoinArguments, TotalLength;
    var s := JoinArguments(args);
    var p := Pieces(s);
    var n := |p| - 1;
    var front := TrimAll(p[..n]);
    JoinOfPieces(s);
    JoinLength(args);
    JoinLength(p);
    TrimLength(p);
    TrimLength(p[..n]);
    TotalLast(p);
    TrimLast(p);
    assert args == if Text.Trim(p[n]) != "" then TrimAll(p) else front;
  }

  lemma {:induction false} AllTrimmed(args: seq<string>)
    ensures (forall i :: 0 <= i < |args| ==> Text.Trimmed(args[i])) <==> TrimAll(args) == args
  {
    hide TrimAll, Text.TrimStart, Text.TrimEnd, Text.Trim;
    forall i | 0 <= i < |args| ensures Text.Trimmed(args[i]) <==> Text.Trim(args[i]) == args[i] {
      Text.TrimFixes(args[i]);
    }
    if TrimAll(args) == args {
      assert forall i :: 0 <= i < |args| ==> TrimAll(args)[i] == Text.Trim(args[i]);
    }
  }

  /**
    * Splitting a comma-join returns the arguments exactly when each is trimmed and
    * has no top-level comma, all but the last close what they open, and the last is
    * not empty.
    */
  lemma {:induction false} SplitUndoesJoinIff(args: seq<string>)
    ensures Arguments(JoinArguments(args)) == args <==> Splittable(args)
  {
    hide Pieces, Text.Trim, TrimAll, NestingAfter, Text.Trimmed;
    if args == [] {
      NothingYet();
      assert [""][..0] == [];
      Text.TrimFixes("");
    } else {
      hide JoinArguments;
      var n := |args| - 1;
      AllTrimmed(args);
      TrimLast(args);
      if Splittable(args) {
        PiecesOfJoin(args);
      }
      if Arguments(JoinArguments(args)) == args {
        RoundTripMeansPieces(args);
        PiecesAreSelfContained(JoinArguments(args));
        Text.TrimFixes(args[n]);
      }
    }
  }
}
