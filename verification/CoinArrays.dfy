/**
 Coin arrays as text. Postgres renders an array of coins as {"(d,a)","(d,a)"}, and Scan
 takes such a text apart by deleting and replacing characters and splitting what is left.
 The result says that Scan is the inverse of the rendering.
 */
module CoinArrays {
  import opened Wrappers

  /** DbCoin and DbDecCoin have the same shape, and their methods the same text. */
  datatype Coin = Coin(denom: string, amount: string)

  // ---- Go's strings package -------------------------------------------------------------

  /** ReplaceAll(s, c, "") for a single character. */
  function Delete(s: string, c: char): string {
    if s == [] then [] else (if s[0] == c then [] else [s[0]]) + Delete(s[1..], c)
  }

  /** ReplaceAll for a non-empty pattern, left to right without overlaps. */
  function ReplaceAll(s: string, pattern: string, by_: string): string
    requires pattern != []
    decreases |s|
  {
    if s == [] then []
    else if pattern <= s then by_ + ReplaceAll(s[|pattern|..], pattern, by_)
    else [s[0]] + ReplaceAll(s[1..], pattern, by_)
  }

  /** Split(s, sep) for a separator of one character. */
  function Split(s: string, sep: char): (parts: seq<string>)
    ensures parts != []
  {
    if s == [] then [[]]
    else
      var rest := Split(s[1..], sep);
      if s[0] == sep then [[]] + rest else [[s[0]] + rest[0]] + rest[1..]
  }

  /** The parts that are not empty, in order. */
  function NonEmpty(parts: seq<string>): seq<string> {
    if parts == [] then [] else (if parts[0] == [] then [] else [parts[0]]) + NonEmpty(parts[1..])
  }

  method RemoveEmpty(s: seq<string>) returns (r: seq<string>)
    ensures r == NonEmpty(s)
  {
    r := [];
    for i := 0 to |s|
      invariant r + NonEmpty(s[i..]) == NonEmpty(s)
    {
      if s[i] != [] {
        r := r + [s[i]];
      }
    }
  }

  // ---- Value and Scan -------------------------------------------------------------------

  /** DbCoin.Value. */
  function Value(c: Coin): string {
    "(" + c.denom + "," + c.amount + ")"
  }

  /** The elements of the array from the first on, quoted because they contain a comma. */
  function Elements(coins: seq<Coin>): string {
    if coins == [] then []
    else if |coins| == 1 then "\"" + Value(coins[0]) + "\""
    else "\"" + Value(coins[0]) + "\"," + Elements(coins[1..])
  }

  /** The text of the whole array. */
  function Render(coins: seq<Coin>): string {
    "{" + Elements(coins) + "}"
  }

  function Unquote(s: string): string {
    Delete(Delete(Delete(s, '\"'), '{'), '}')
  }

  function Strip(s: string): string {
    Delete(Delete(s, '('), ')')
  }

  function Reparse(s: string): string {
    Strip(ReplaceAll(s, "),(", ") ("))
  }

  /** Denom and amount of one part; a part without a comma is an index error at run time. */
  function ParsePart(part: string): Option<Coin> {
    var v := Split(part, ',');
    if |v| < 2 then None else Some(Coin(v[0], v[1]))
  }

  function ParseParts(parts: seq<string>): Option<seq<Coin>> {
    if parts == [] then Some([])
    else if ParsePart(parts[0]).None? then None
    else Prefixed([ParsePart(parts[0]).value], ParseParts(parts[1..]))
  }

  function Prefixed(coins: seq<Coin>, rest: Option<seq<Coin>>): Option<seq<Coin>> {
    if rest.None? then None else Some(coins + rest.value)
  }

  lemma PrefixedByNothing(rest: Option<seq<Coin>>)
    ensures Prefixed([], rest) == rest
  {
    assert rest.Some? ==> [] + rest.value == rest.value;
  }

  lemma PrefixedAgain(coins: seq<Coin>, c: Coin, rest: Option<seq<Coin>>)
    ensures Prefixed(coins, Prefixed([c], rest)) == Prefixed(coins + [c], rest)
  {
    assert rest.Some? ==> coins + ([c] + rest.value) == coins + [c] + rest.value;
  }

  function Scanned(src: string): Option<seq<Coin>> {
    ParseParts(NonEmpty(Split(Reparse(Unquote(src)), ' ')))
  }

  /** DbCoins.Scan and DbDecCoins.Scan. None stands for the run-time error. */
  method ScanCoins(src: string) returns (r: Option<seq<Coin>>)
    ensures r == Scanned(src)
  {
    var strValue := Delete(src, '\"');
    strValue := Delete(strValue, '{');
    strValue := Delete(strValue, '}');
    strValue := ReplaceAll(strValue, "),(", ") (");
    strValue := Delete(strValue, '(');
    strValue := Delete(strValue, ')');
    var values := RemoveEmpty(Split(strValue, ' '));
    var coins: seq<Coin> := [];
    PrefixedByNothing(ParseParts(values));
    for i := 0 to |values|
      invariant ParseParts(values) == Prefixed(coins, ParseParts(values[i..]))
    {
      assert values[i..][1..] == values[i + 1..];
      var v := Split(values[i], ',');
      if |v| < 2 {
        return None;
      }
      PrefixedAgain(coins, Coin(v[0], v[1]), ParseParts(values[i + 1..]));
      coins := coins + [Coin(v[0], v[1])];
    }
    assert coins + [] == coins;
    return Some(coins);
  }

  /** DbCoin.Scan: a single coin. */
  function ScanCoin(src: string): Option<Coin> {
    ParsePart(Strip(Unquote(src)))
  }

  // ---- The round trip -------------------------------------------------------------------

  const SPECIAL: set<char> := {'\"', '{', '}', '(', ')', ',', ' '}

  predicate Clean(s: string) {
    forall c :: c in s ==> c !in SPECIAL
  }

  predicate CleanCoins(coins: seq<Coin>) {
    forall i :: 0 <= i < |coins| ==> Clean(coins[i].denom) && Clean(coins[i].amount)
  }

  lemma {:induction false} DeleteAppend(s: string, t: string, c: char)
    ensures Delete(s + t, c) == Delete(s, c) + Delete(t, c)
  {
    if s == [] {
      assert s + t == t;
    } else {
      assert (s + t)[1..] == s[1..] + t;
      DeleteAppend(s[1..], t, c);
    }
  }

  lemma {:induction false} DeleteNothing(s: string, c: char)
    requires c !in s
    ensures Delete(s, c) == s
  {
    if s != [] {
      DeleteNothing(s[1..], c);
    }
  }

  /** A text without the first character of the pattern is copied. */
  lemma {:induction false} ReplaceSkips(s: string, t: string, pattern: string, by_: string)
    requires pattern != [] && pattern[0] !in s
    ensures ReplaceAll(s + t, pattern, by_) == s + ReplaceAll(t, pattern, by_)
  {
    if s == [] {
      assert s + t == t;
    } else {
      assert (s + t)[0] == s[0] && (s + t)[1..] == s[1..] + t;
      assert s[0] in s;
      ReplaceSkips(s[1..], t, pattern, by_);
    }
  }

  lemma ReplaceHit(t: string, pattern: string, by_: string)
    requires pattern != []
    ensures ReplaceAll(pattern + t, pattern, by_) == by_ + ReplaceAll(t, pattern, by_)
  {
    assert (pattern + t)[|pattern|..] == t;
  }

  lemma {:induction false} SplitSkips(s: string, t: string, sep: char)
    requires sep !in s
    ensures Split(s + t, sep) == [s + Split(t, sep)[0]] + Split(t, sep)[1..]
  {
    if s == [] {
      assert s + t == t;
      assert [] + Split(t, sep)[0] == Split(t, sep)[0];
    } else {
      assert (s + t)[0] == s[0] && (s + t)[1..] == s[1..] + t;
      assert s[0] in s;
      SplitSkips(s[1..], t, sep);
      var rest, parts := Split(s[1..] + t, sep), Split(t, sep);
      assert rest[0] == s[1..] + parts[0] && rest[1..] == parts[1..];
      assert [s[0]] + (s[1..] + parts[0]) == s + parts[0];
    }
  }

  lemma SplitAt(s: string, t: string, sep: char)
    requires sep !in s
    ensures Split(s + [sep] + t, sep) == [s] + Split(t, sep)
  {
    assert ([sep] + t)[1..] == t;
    assert Split([sep] + t, sep) == [[]] + Split(t, sep);
    SplitSkips(s, [sep] + t, sep);
    assert s + [sep] + t == s + ([sep] + t);
    assert s + [] == s;
  }

  lemma SplitNone(s: string, sep: char)
    requires sep !in s
    ensures Split(s, sep) == [s]
  {
    SplitSkips(s, [], sep);
    assert s + [] == s;
  }

  /** "d,a": the text of a coin without its parentheses. */
  function Body(c: Coin): string {
    c.denom + "," + c.amount
  }

  /** The array once quotes and braces are gone. */
  function Bare(coins: seq<Coin>): string {
    if coins == [] then []
    else if |coins| == 1 then Value(coins[0])
    else Value(coins[0]) + "," + Bare(coins[1..])
  }

  /** The array once the commas between the coins are blanks and the parentheses are gone. */
  function Blanked(coins: seq<Coin>): string {
    if coins == [] then []
    else if |coins| == 1 then Body(coins[0])
    else Body(coins[0]) + " " + Blanked(coins[1..])
  }

  lemma UnquoteAppend(s: string, t: string)
    ensures Unquote(s + t) == Unquote(s) + Unquote(t)
  {
    DeleteAppend(s, t, '\"');
    DeleteAppend(Delete(s, '\"'), Delete(t, '\"'), '{');
    DeleteAppend(Delete(Delete(s, '\"'), '{'), Delete(Delete(t, '\"'), '{'), '}');
  }

  lemma UnquoteNothing(s: string)
    requires '\"' !in s && '{' !in s && '}' !in s
    ensures Unquote(s) == s
  {
    DeleteNothing(s, '\"');
    DeleteNothing(s, '{');
    DeleteNothing(s, '}');
  }

  lemma ValueIsBare(c: Coin)
    requires Clean(c.denom) && Clean(c.amount)
    ensures Unquote(Value(c)) == Value(c)
  {
    UnquoteNothing(Value(c));
  }

  lemma UnquoteLiterals()
    ensures Unquote("\"") == [] && Unquote("\",") == "," && Unquote("{") == [] && Unquote("}") == []
  {
    assert Delete("\"", '\"') == [] && Delete("\",", '\"') == ",";
    UnquoteNothing(",");
    assert Delete("{", '\"') == "{" && Delete("}", '\"') == "}" && Delete("}", '{') == "}";
  }

  lemma UnquotedElement(c: Coin)
    requires Clean(c.denom) && Clean(c.amount)
    ensures Unquote("\"" + Value(c) + "\"") == Value(c)
    ensures Unquote("\"" + Value(c) + "\",") == Value(c) + ","
  {
    var v := Value(c);
    ValueIsBare(c);
    UnquoteLiterals();
    UnquoteAppend("\"", v);
    UnquoteAppend("\"" + v, "\"");
    UnquoteAppend("\"" + v, "\",");
    assert [] + v + [] == v;
  }

  lemma {:induction false} UnquotedElements(coins: seq<Coin>)
    requires CleanCoins(coins)
    ensures Unquote(Elements(coins)) == Bare(coins)
  {
    if coins != [] {
      UnquotedElement(coins[0]);
      if |coins| > 1 {
        UnquotedElements(coins[1..]);
        UnquoteAppend("\"" + Value(coins[0]) + "\",", Elements(coins[1..]));
      }
    }
  }

  lemma UnquotedArray(coins: seq<Coin>)
    requires CleanCoins(coins)
    ensures Unquote(Render(coins)) == Bare(coins)
  {
    UnquoteAppend("{" + Elements(coins), "}");
    UnquoteAppend("{", Elements(coins));
    UnquotedElements(coins);
    UnquoteLiterals();
    assert [] + Bare(coins) + [] == Bare(coins);
  }

  lemma StripAppend(s: string, t: string)
    ensures Strip(s + t) == Strip(s) + Strip(t)
  {
    DeleteAppend(s, t, '(');
    DeleteAppend(Delete(s, '('), Delete(t, '('), ')');
  }

  lemma StripLiterals()
    ensures Strip("(") == [] && Strip(")") == [] && Strip(") (") == " "
  {
    assert Delete("(", '(') == [] && Delete(")", '(') == ")" && Delete(")", ')') == [];
    assert Delete(") (", '(') == ") " && Delete(") ", ')') == " ";
  }

  lemma BodyIsClean(c: Coin)
    requires Clean(c.denom) && Clean(c.amount)
    ensures '(' !in Body(c) && ')' !in Body(c) && ' ' !in Body(c)
    ensures Strip(Body(c)) == Body(c)
  {
    DeleteNothing(Body(c), '(');
    DeleteNothing(Body(c), ')');
  }

  lemma ReparseLast(b: string)
    requires ')' !in b && Strip(b) == b
    ensures Reparse(b + ")") == b
  {
    ReplaceSkips(b, ")", "),(", ") (");
    assert ReplaceAll(")", "),(", ") (") == ")";
    StripLiterals();
    StripAppend(b, ")");
    assert b + [] == b;
  }

  lemma ReparseFirst(b: string, rest: string)
    requires ')' !in b && Strip(b) == b
    ensures Reparse(b + ("),(" + rest)) == b + " " + Reparse(rest)
  {
    ReplaceSkips(b, "),(" + rest, "),(", ") (");
    ReplaceHit(rest, "),(", ") (");
    StripFirst(b, ReplaceAll(rest, "),(", ") ("));
  }

  lemma StripFirst(b: string, r: string)
    requires Strip(b) == b
    ensures Strip(b + (") (" + r)) == b + " " + Strip(r)
  {
    StripLiterals();
    StripAppend(b, ") (" + r);
    StripAppend(") (", r);
    assert b + (" " + Strip(r)) == b + " " + Strip(r);
  }

  /** The bare text after its opening parenthesis. */
  function Opened(coins: seq<Coin>): string
    requires coins != []
  {
    if |coins| == 1 then Body(coins[0]) + ")" else Body(coins[0]) + ("),(" + Opened(coins[1..]))
  }

  lemma ValueOpens(c: Coin)
    ensures Value(c) == "(" + (Body(c) + ")")
  {
  }

  lemma {:induction false} BareOpens(coins: seq<Coin>)
    requires coins != []
    ensures Bare(coins) == "(" + Opened(coins)
  {
    ValueOpens(coins[0]);
    if |coins| > 1 {
      BareOpens(coins[1..]);
      BareJoins(Body(coins[0]), Opened(coins[1..]));
    }
  }

  lemma BareJoins(b: string, rest: string)
    ensures "(" + (b + ")") + "," + ("(" + rest) == "(" + (b + ("),(" + rest))
  {
  }

  /** Coin by coin. */
  lemma {:induction false} ReparseOpened(coins: seq<Coin>)
    requires coins != [] && CleanCoins(coins)
    ensures Reparse(Opened(coins)) == Blanked(coins)
  {
    BodyIsClean(coins[0]);
    if |coins| == 1 {
      ReparseLast(Body(coins[0]));
    } else {
      ReparseOpened(coins[1..]);
      ReparseFirst(Body(coins[0]), Opened(coins[1..]));
    }
  }

  lemma ReparseArray(coins: seq<Coin>)
    requires CleanCoins(coins)
    ensures Reparse(Bare(coins)) == Blanked(coins)
  {
    if coins == [] {
      assert Reparse([]) == [];
    } else {
      BareOpens(coins);
      ReparseOpened(coins);
      var rest := Opened(coins);
      ReplaceSkips("(", rest, "),(", ") (");
      StripAppend("(", ReplaceAll(rest, "),(", ") ("));
      StripLiterals();
      assert [] + Reparse(rest) == Reparse(rest);
    }
  }

  function Bodies(coins: seq<Coin>): seq<string> {
    if coins == [] then [] else [Body(coins[0])] + Bodies(coins[1..])
  }

  lemma BodyNotEmpty(c: Coin)
    ensures Body(c) != []
  {
    assert Body(c)[|c.denom|] == ',';
  }

  lemma {:induction false} SplitBlanked(coins: seq<Coin>)
    requires coins != [] && CleanCoins(coins)
    ensures NonEmpty(Split(Blanked(coins), ' ')) == Bodies(coins)
  {
    var b := Body(coins[0]);
    BodyIsClean(coins[0]);
    BodyNotEmpty(coins[0]);
    if |coins| == 1 {
      SplitNone(b, ' ');
      assert coins[1..] == [];
    } else {
      SplitBlanked(coins[1..]);
      SplitAt(b, Blanked(coins[1..]), ' ');
      assert Blanked(coins) == b + [' '] + Blanked(coins[1..]);
    }
  }

  lemma ParseBody(c: Coin)
    requires Clean(c.denom) && Clean(c.amount)
    ensures ParsePart(Body(c)) == Some(c)
  {
    SplitAt(c.denom, c.amount, ',');
    SplitNone(c.amount, ',');
    assert Body(c) == c.denom + [','] + c.amount;
  }

  lemma {:induction false} ParseBodies(coins: seq<Coin>)
    requires CleanCoins(coins)
    ensures ParseParts(Bodies(coins)) == Some(coins)
  {
    if coins != [] {
      ParseBody(coins[0]);
      ParseBodies(coins[1..]);
      assert Bodies(coins)[1..] == Bodies(coins[1..]);
      assert [coins[0]] + coins[1..] == coins;
    }
  }

  /** Scanning a rendered array gives back the same coins in the same order. */
  lemma ScanRenderRoundTrip(coins: seq<Coin>)
    requires CleanCoins(coins)
    ensures Scanned(Render(coins)) == Some(coins)
  {
    UnquotedArray(coins);
    ReparseArray(coins);
    ParseBodies(coins);
    if coins == [] {
      assert Split(Blanked(coins), ' ') == [[]] && NonEmpty([[]]) == [];
    } else {
      SplitBlanked(coins);
    }
  }

  /** The same for one coin. */
  lemma ScanValueRoundTrip(c: Coin)
    requires Clean(c.denom) && Clean(c.amount)
    ensures ScanCoin(Value(c)) == Some(c)
  {
    ValueIsBare(c);
    BodyIsClean(c);
    assert Value(c) == "(" + (Body(c) + ")");
    StripAppend("(", Body(c) + ")");
    StripAppend(Body(c), ")");
    StripLiterals();
    assert Strip(Value(c)) == Body(c);
    ParseBody(c);
  }

  // ---- The text, character by character ---------------------------------------------------

  /** Denom before amount, both in one pair of parentheses; each coin quoted, the whole in braces. */
  lemma RenderedCoins()
    ensures Value(Coin("a", "1")) == "(a,1)"
    ensures Render([]) == "{}"
    ensures Render([Coin("a", "1"), Coin("b", "2")]) == "{\"(a,1)\",\"(b,2)\"}"
  {
    var a, b := Coin("a", "1"), Coin("b", "2");
    ElementsMore(a, [b]);
    assert [a, b] == [a] + [b];
    OneElement(a, "(a,1)");
    OneElement(b, "(b,2)");
  }

  lemma OneElement(c: Coin, value: string)
    requires Value(c) == value
    ensures Elements([c]) == "\"" + value + "\""
  {
  }

  lemma ElementsMore(c: Coin, rest: seq<Coin>)
    requires rest != []
    ensures Elements([c] + rest) == Elements([c]) + "," + Elements(rest)
  {
    assert ([c] + rest)[1..] == rest;
    assert "\"" + Value(c) + "\"," == "\"" + Value(c) + "\"" + ",";
  }

  /** The elements stand side by side, a comma between any two. */
  lemma {:induction false} ElementsAppend(a: seq<Coin>, b: seq<Coin>)
    requires a != [] && b != []
    ensures Elements(a + b) == Elements(a) + "," + Elements(b)
  {
    var c, rest := a[0], a[1..];
    assert a == [c] + rest;
    if rest == [] {
      ElementsMore(c, b);
    } else {
      ElementsAppend(rest, b);
      ElementsMore(c, rest);
      ElementsMore(c, rest + b);
      assert a + b == [c] + (rest + b);
      Regrouped(Elements([c]) + ",", Elements(rest), "," + Elements(b));
      Regrouped(Elements(rest), ",", Elements(b));
      Regrouped(Elements(a), ",", Elements(b));
    }
  }

  lemma Regrouped(a: string, b: string, c: string)
    ensures a + (b + c) == a + b + c
  {
  }

  /** Delete takes one character at a time, and only that character. */
  lemma DeleteOne(x: char, c: char)
    ensures Delete([x], c) == if x == c then [] else [x]
  {
    assert Delete([], c) == [];
  }

  /** A text in which the pattern does not occur is copied. */
  lemma {:induction false} NothingToReplace(s: string, pattern: string, by_: string)
    requires pattern != [] && forall i :: 0 <= i <= |s| ==> !(pattern <= s[i..])
    ensures ReplaceAll(s, pattern, by_) == s
  {
    if s != [] {
      assert s[0..] == s;
      forall i | 0 <= i < |s| ensures !(pattern <= s[1..][i..]) {
        assert s[1..][i..] == s[i + 1..];
      }
      NothingToReplace(s[1..], pattern, by_);
    }
  }

  lemma {:induction false} NonEmptyAppend(a: seq<string>, b: seq<string>)
    ensures NonEmpty(a + b) == NonEmpty(a) + NonEmpty(b)
    ensures NonEmpty([]) == [] && NonEmpty([[]]) == []
  {
    if a == [] {
      assert a + b == b;
    } else {
      assert (a + b)[1..] == a[1..] + b;
      NonEmptyAppend(a[1..], b);
    }
  }

  lemma {:induction false} NothingEmpty(parts: seq<string>)
    requires [] !in parts
    ensures NonEmpty(parts) == parts
  {
    if parts != [] {
      NothingEmpty(parts[1..]);
    }
  }

  /**
   A part is a denom up to its first comma and an amount up to the next one or the end. What
   follows is dropped, and a part without a comma stops the scan.
   */
  lemma PartMeans(part: string, denom: string, amount: string, rest: string)
    requires ',' !in denom && ',' !in amount
    ensures ',' !in part ==> ParsePart(part) == None
    ensures ParsePart(denom + [','] + amount) == Some(Coin(denom, amount))
    ensures ParsePart(denom + [','] + amount + [','] + rest) == Some(Coin(denom, amount))
  {
    if ',' !in part {
      SplitNone(part, ',');
    }
    SplitAt(denom, amount, ',');
    SplitNone(amount, ',');
    SplitAt(amount, rest, ',');
    SplitAt(denom, amount + [','] + rest, ',');
    assert denom + [','] + amount + [','] + rest == denom + [','] + (amount + [','] + rest);
  }
}
