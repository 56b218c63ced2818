// Argument lists as one writes them, with quotations and nested brackets, and what the scanners make of them.
module ArgumentGrammar {
  import opened Wrappers
  import opened ArgumentScanner
  import Text

  datatype Unit = Plain(c: char) | Escape(c: char)

  datatype Token =
    | Letter(c: char)
    | Quoted(mark: char, units: seq<Unit>)
    | Group(kind: nat, inside: seq<Token>)

  /** In a quotation only a backslash and the quotation mark itself are special. */
  predicate ValidUnit(mark: char, u: Unit) {
    u.Plain? ==> u.c != mark && u.c != '\\'
  }

  /** Outside quotations, brackets come in pairs; every other character but a quotation mark stands for itself. */
  predicate ValidToken(t: Token) {
    match t
    case Letter(c) => c !in {'\'', '"', '`', '(', ')', '[', ']', '{', '}'}
    case Quoted(mark, units) => mark in {'\'', '"', '`'} && forall u <- units :: ValidUnit(mark, u)
    case Group(kind, inside) => kind < 3 && forall i <- inside :: ValidToken(i)
  }

  function UnitsText(units: seq<Unit>): string {
    if units == [] then ""
    else (if units[0].Plain? then [units[0].c] else ['\\', units[0].c]) + UnitsText(units[1..])
  }

  function TokenText(t: Token): string
    requires ValidToken(t)
  {
    match t
    case Letter(c) => [c]
    case Quoted(mark, units) => [mark] + UnitsText(units) + [mark]
    case Group(kind, inside) => ["([{"[kind]] + TokensText(inside) + [")]}"[kind]]
  }

  function TokensText(ts: seq<Token>): string
    requires forall t <- ts :: ValidToken(t)
  {
    if ts == [] then "" else TokenText(ts[0]) + TokensText(ts[1..])
  }

  // ---- What the scanners make of a text ----

  /** The last piece takes the text. */
  function GrowBy(pieces: seq<string>, text: string): seq<string>
    requires pieces != []
  {
    pieces[..|pieces| - 1] + [pieces[|pieces| - 1] + text]
  }

  /**
    * From s the text takes the splitter to nesting n and the matcher along with it, all of it goes to the last
    * piece, and the matcher's depth never falls below the floor.
    */
  ghost predicate Reaches(s: string, text: string, n: Nesting, floor: int) {
    && NestingAfter(s + text) == n && QuotingAfter(s + text) == n.quoting
    && Depth(s + text) - Depth(s) == n.paren - NestingAfter(s).paren
    && Pieces(s + text) == GrowBy(Pieces(s), text)
    && forall j :: 0 <= j <= |text| ==> Depth(s + text[..j]) >= floor
  }

  ghost predicate InStep(s: string) {
    NestingAfter(s).quoting == QuotingAfter(s)
  }

  lemma {:induction false} ReachesNothing(s: string)
    requires InStep(s)
    ensures Reaches(s, "", NestingAfter(s), Depth(s))
  {
    hide NestingAfter, Pieces, QuotingAfter, Depth;
    assert s + "" == s;
    var p := Pieces(s);
    assert p[|p| - 1] + "" == p[|p| - 1];
    assert GrowBy(p, "") == p;
  }

  lemma ReachesFurther(s: string, a: string, m: Nesting, b: string, n: Nesting, floor: int)
    requires Reaches(s, a, m, floor) && Reaches(s + a, b, n, floor)
    ensures Reaches(s, a + b, n, floor)
  {
    hide NestingAfter, Pieces, QuotingAfter, Depth;
    assert s + (a + b) == s + a + b;
    var p := Pieces(s);
    assert p[|p| - 1] + (a + b) == p[|p| - 1] + a + b;
    assert GrowBy(GrowBy(p, a), b) == GrowBy(p, a + b);
    forall j | 0 <= j <= |a + b| ensures Depth(s + (a + b)[..j]) >= floor {
      if j <= |a| {
        assert (a + b)[..j] == a[..j];
      } else {
        assert s + (a + b)[..j] == s + a + b[..j - |a|];
      }
    }
  }

  lemma ReachesFrom(s: string, text: string, n: Nesting, floor: int, lower: int)
    requires Reaches(s, text, n, floor) && lower <= floor
    ensures Reaches(s, text, n, lower)
  {
  }

  /** One character that is no comma at top level and closes no parenthesis that is not open. */
  lemma {:induction false} ReachesNext(s: string, c: char)
    requires InStep(s) && !TopLevelComma(NestingAfter(s), c)
    requires c == ')' && QuotingAfter(s).quote.None? ==> NestingAfter(s).paren > 0
    ensures var n := NextNesting(NestingAfter(s), c);
            Reaches(s, [c], n, if n.paren < NestingAfter(s).paren then Depth(s) - 1 else Depth(s))
  {
    OneMoreChar(s, c);
    OneMoreDepth(s, c);
    hide NestingAfter, Pieces, QuotingAfter, Depth;
    assert [c][..0] == "" && [c][..1] == [c] && s + "" == s;
  }

  // ---- Quotations ----

  function Within(n: Nesting, mark: char): Nesting {
    n.(quoting := Quoting(Some(mark), false))
  }

  lemma {:induction false} ReachedNesting(s: string, text: string, n: Nesting, floor: int)
    requires Reaches(s, text, n, floor)
    ensures NestingAfter(s + text) == n && InStep(s + text)
    ensures Depth(s + text) - Depth(s) == n.paren - NestingAfter(s).paren
  {
  }

  lemma {:induction false} UnitReaches(s: string, n: Nesting, mark: char, u: Unit)
    requires NestingAfter(s) == Within(n, mark) && InStep(s) && ValidUnit(mark, u)
    ensures Reaches(s, if u.Plain? then [u.c] else ['\\', u.c], Within(n, mark), Depth(s))
  {
    hide NestingAfter, QuotingAfter, Depth, Reaches, Pieces;
    if u.Plain? {
      ReachesNext(s, u.c);
    } else {
      ReachesNext(s, '\\');
      var m := Within(n, mark).(quoting := Quoting(Some(mark), true));
      ReachedNesting(s, ['\\'], m, Depth(s));
      ReachesNext(s + ['\\'], u.c);
      ReachesFurther(s, ['\\'], m, [u.c], Within(n, mark), Depth(s));
      assert ['\\'] + [u.c] == ['\\', u.c];
    }
  }

  lemma {:induction false} UnitsReach(s: string, n: Nesting, mark: char, units: seq<Unit>)
    requires NestingAfter(s) == Within(n, mark) && InStep(s) && forall u <- units :: ValidUnit(mark, u)
    ensures Reaches(s, UnitsText(units), Within(n, mark), Depth(s))
    decreases |units|
  {
    hide NestingAfter, QuotingAfter, Depth, Reaches, Pieces;
    if units == [] {
      ReachesNothing(s);
    } else {
      var head := if units[0].Plain? then [units[0].c] else ['\\', units[0].c];
      UnitReaches(s, n, mark, units[0]);
      ReachedNesting(s, head, Within(n, mark), Depth(s));
      UnitsReach(s + head, n, mark, units[1..]);
      ReachesFurther(s, head, Within(n, mark), UnitsText(units[1..]), Within(n, mark), Depth(s));
    }
  }

  lemma {:induction false} QuotedReaches(s: string, mark: char, units: seq<Unit>)
    requires NestingAfter(s).quoting == UNQUOTED && InStep(s) && ValidToken(Quoted(mark, units))
    ensures Reaches(s, TokenText(Quoted(mark, units)), NestingAfter(s), Depth(s))
  {
    hide NestingAfter, QuotingAfter, Depth, Reaches, Pieces;
    var n, d := NestingAfter(s), Depth(s);
    ReachesNext(s, mark);
    ReachedNesting(s, [mark], Within(n, mark), d);
    UnitsReach(s + [mark], n, mark, units);
    ReachesFurther(s, [mark], Within(n, mark), UnitsText(units), Within(n, mark), d);
    var open := [mark] + UnitsText(units);
    ReachedNesting(s, open, Within(n, mark), d);
    ReachesNext(s + open, mark);
    ReachesFurther(s, open, Within(n, mark), [mark], n, d);
  }

  // ---- Brackets ----

  /** Outside quotations, and inside some bracket where there are top-level commas. */
  ghost predicate Ready(s: string, ts: seq<Token>) {
    && NestingAfter(s).quoting == UNQUOTED && InStep(s)
    && (NestingAfter(s).paren == NestingAfter(s).bracket == NestingAfter(s).brace == 0 ==>
          forall t <- ts :: t != Letter(','))
  }

  lemma {:induction false} TokensReach(s: string, ts: seq<Token>)
    requires Ready(s, ts) && forall t <- ts :: ValidToken(t)
    ensures Reaches(s, TokensText(ts), NestingAfter(s), Depth(s))
    decreases ts, 1
  {
    hide NestingAfter, QuotingAfter, Depth, Reaches, Pieces;
    if ts == [] {
      ReachesNothing(s);
    } else {
      assert ts[0] in ts && forall t <- ts[1..] :: t in ts;
      TokenReaches(s, ts[0]);
      var head := TokenText(ts[0]);
      ReachedNesting(s, head, NestingAfter(s), Depth(s));
      TokensReach(s + head, ts[1..]);
      ReachesFurther(s, head, NestingAfter(s), TokensText(ts[1..]), NestingAfter(s), Depth(s));
    }
  }

  lemma {:induction false} TokenReaches(s: string, t: Token)
    requires Ready(s, [t]) && ValidToken(t)
    ensures Reaches(s, TokenText(t), NestingAfter(s), Depth(s))
    decreases t, 0
  {
    hide NestingAfter, QuotingAfter, Depth, Reaches, Pieces;
    assert t in [t];
    match t
    case Letter(c) => ReachesNext(s, c);
    case Quoted(mark, units) => QuotedReaches(s, mark, units);
    case Group(kind, inside) =>
      var n, d := NestingAfter(s), Depth(s);
      var open, close := "([{"[kind], ")]}"[kind];
      var deeper := NextNesting(n, open);
      ReachesNext(s, open);
      ReachedNesting(s, [open], deeper, d);
      TokensReach(s + [open], inside);
      ReachesFrom(s + [open], TokensText(inside), deeper, Depth(s + [open]), d);
      ReachesFurther(s, [open], deeper, TokensText(inside), deeper, d);
      var before := [open] + TokensText(inside);
      ReachedNesting(s, before, deeper, d);
      ReachesNext(s + before, close);
      ReachesFurther(s, before, deeper, [close], n, d);
  }

  // ---- What follows for whole texts ----

  predicate NoTopLevelComma(ts: seq<Token>) {
    Letter(',') !in ts
  }

  /** A text with paired brackets and closed quotations is one piece and leaves nothing open. */
  lemma {:induction false} TextIsOnePiece(ts: seq<Token>)
    requires (forall t <- ts :: ValidToken(t)) && NoTopLevelComma(ts)
    ensures OnePiece(TokensText(ts)) && NestingAfter(TokensText(ts)) == OUTSIDE
  {
    NothingYet();
    assert QuotingAfter("") == UNQUOTED && Depth("") == 0;
    TokensReach("", ts);
    hide NestingAfter, QuotingAfter, Depth, Pieces;
    assert "" + TokensText(ts) == TokensText(ts);
    assert GrowBy([""], TokensText(ts)) == [TokensText(ts)];
  }

  /**
    * Splitting gives back any list of such arguments: commas inside brackets and quotations do not count,
    * and no quotation mark or bracket is taken for another.
    */
  lemma {:induction false} ArgumentsComeBack(lists: seq<seq<Token>>, args: seq<string>)
    requires |args| == |lists| && (args != [] ==> args[|args| - 1] != "")
    requires forall i :: 0 <= i < |lists| ==>
               && (forall t <- lists[i] :: ValidToken(t)) && NoTopLevelComma(lists[i])
               && args[i] == TokensText(lists[i]) && Text.Trimmed(args[i])
    ensures Arguments(JoinArguments(args)) == args
  {
    hide NestingAfter, Pieces, Arguments, JoinArguments, TokensText, ValidToken, Text.Trimmed;
    forall i | 0 <= i < |args| ensures OnePiece(args[i]) && NestingAfter(args[i]) == OUTSIDE {
      TextIsOnePiece(lists[i]);
    }
    SplitUndoesJoinIff(args);
  }

  /** What `FindMatchingParen` promises of its result. */
  ghost predicate Matches(source: string, openIndex: nat, r: int) {
    && (r == -1 <==> StaysOpen(source, openIndex, |source|))
    && (r != -1 ==> openIndex < r < |source| && StaysOpen(source, openIndex, r)
                    && Depth(Body(source, openIndex, r + 1)) == -1)
  }

  /** A bracket in front is nothing to the matcher. */
  lemma {:induction false} AfterBracket(s: string)
    ensures Depth("[" + s) == Depth(s) && QuotingAfter("[" + s) == QuotingAfter(s)
    ensures Depth("[") == 0 && QuotingAfter("[") == UNQUOTED && NestingAfter("[") == OUTSIDE.(bracket := 1)
  {
    NothingYet();
    OneMoreChar("", '[');
    OneMoreDepth("", '[');
    assert Depth("") == 0 && QuotingAfter("") == UNQUOTED && "" + ['['] == "[";
    hide Depth, QuotingAfter, NestingAfter, Pieces;
    if s == "" {
      assert "[" + s == "[";
    } else {
      var init, c := s[..|s| - 1], s[|s| - 1];
      AfterBracket(init);
      OneMoreDepth(init, c);
      OneMoreDepth("[" + init, c);
      assert s == init + [c] && "[" + s == "[" + init + [c];
    }
  }

  /** Alone, a text in paired brackets never falls below depth zero, commas or not, and the next ")" closes. */
  lemma {:induction false} InsideStaysOpen(ts: seq<Token>)
    requires forall t <- ts :: ValidToken(t)
    ensures forall j :: 0 <= j <= |TokensText(ts)| ==> Depth(TokensText(ts)[..j]) >= 0
    ensures Depth(TokensText(ts) + ")") == -1
  {
    hide TokensText, ValidToken, NestingAfter, QuotingAfter, Depth, Pieces;
    var text := TokensText(ts);
    AfterBracket("");
    TokensReach("[", ts);
    forall j | 0 <= j <= |text| ensures Depth(text[..j]) >= 0 {
      AfterBracket(text[..j]);
    }
    AfterBracket(text);
    OneMoreDepth(text, ')');
    ReachedNesting("[", text, NestingAfter("["), 0);
  }

  /** The parenthesis found for an opening one is the one that closes the group. */
  lemma {:induction false} GroupIsMatched(before: string, ts: seq<Token>, after: string, r: int)
    requires forall t <- ts :: ValidToken(t)
    requires Matches(before + "(" + TokensText(ts) + ")" + after, |before|, r)
    ensures r == |before| + 1 + |TokensText(ts)|
  {
    var text := TokensText(ts);
    var source := before + "(" + text + ")" + after;
    var close := |before| + 1 + |text|;
    InsideStaysOpen(ts);
    hide NestingAfter, QuotingAfter, Depth, Pieces, TokensText, ValidToken;
    assert Body(source, |before|, close + 1) == text + ")";
    assert Depth(Body(source, |before|, close + 1)) == -1;
    forall j | |before| < j <= close ensures Depth(Body(source, |before|, j)) >= 0 {
      assert Body(source, |before|, j) == text[..j - |before| - 1];
    }
  }
}
