/**
 The messages of a page of transactions are fetched with one query, sorted by index across all
 transactions, and then grouped by transaction hash. The reference is one query per transaction.
 A query may return rows of equal index in any order, and the two queries need not agree.
 */
module MessagePreload {
  /** A row of the message table; content is everything the code only copies. */
  datatype Message = Message(hash: string, index: int, content: string)

  /** A transaction; messages is its JSON column, which wins when it is not empty. */
  datatype Transaction = Transaction(hash: string, messages: seq<string>)

  datatype Source = FromColumn(contents: seq<string>) | FromTable(rows: seq<Message>)

  type Table = multiset<Message>

  ghost predicate ByIndex(rows: seq<Message>) {
    forall i, j :: 0 <= i < j < |rows| ==> rows[i].index <= rows[j].index
  }

  /** rows is what a query for the hashes, ordered by index, may return. */
  ghost predicate IsAnswer(rows: seq<Message>, table: Table, hashes: set<string>) {
    && ByIndex(rows)
    && forall m :: multiset(rows)[m] == if m.hash in hashes then table[m] else 0
  }

  /** No two different messages of the transaction have one index. */
  ghost predicate NoTies(table: Table, hash: string) {
    forall m, n :: m in table && n in table && m.hash == n.hash == hash && m.index == n.index ==> m == n
  }

  /** Where the query's order settles everything, it gives just one list. */
  ghost predicate OnlyAnswer(rows: seq<Message>, table: Table, hash: string) {
    forall other :: IsAnswer(other, table, {hash}) ==> other == rows
  }

  // ---- Grouping -----------------------------------------------------------------------------

  /** The rows of one transaction, in order. */
  function Select(rows: seq<Message>, hash: string): seq<Message> {
    if rows == [] then []
    else Select(rows[..|rows| - 1], hash) + if rows[|rows| - 1].hash == hash then [rows[|rows| - 1]] else []
  }

  lemma {:induction false} SelectCounts(rows: seq<Message>, hash: string)
    ensures forall m :: multiset(Select(rows, hash))[m] == if m.hash == hash then multiset(rows)[m] else 0
  {
    if rows != [] {
      var n := |rows| - 1;
      SelectCounts(rows[..n], hash);
      assert rows == rows[..n] + [rows[n]];
    }
  }

  lemma {:induction false} SelectKeepsOrder(rows: seq<Message>, hash: string)
    requires ByIndex(rows)
    ensures ByIndex(Select(rows, hash))
    ensures forall m :: m in Select(rows, hash) ==> m in rows
  {
    if rows != [] {
      var n := |rows| - 1;
      SelectKeepsOrder(rows[..n], hash);
      assert forall m :: m in rows[..n] ==> m.index <= rows[n].index;
      var front := Select(rows[..n], hash);
      assert forall i :: 0 <= i < |front| ==> front[i] in rows[..n];
    }
  }

  /** Grouping an answer for many transactions gives an answer for each of them. */
  lemma SelectAnswers(rows: seq<Message>, table: Table, hashes: set<string>, hash: string)
    requires IsAnswer(rows, table, hashes) && hash in hashes
    ensures IsAnswer(Select(rows, hash), table, {hash})
  {
    SelectCounts(rows, hash);
    SelectKeepsOrder(rows, hash);
  }

  /** The Map: a key for each transaction that has rows, and for no other. */
  ghost predicate IsGrouping(groups: map<string, seq<Message>>, rows: seq<Message>) {
    && (forall h :: h in groups <==> Select(rows, h) != [])
    && forall h :: h in groups ==> groups[h] == Select(rows, h)
  }

  /** preloadMessagesByHash, with what its query returned; for no hashes there is no query. */
  method PreloadMessagesByHash(hashes: seq<string>, messages: seq<Message>)
    returns (messageMap: map<string, seq<Message>>)
    ensures IsGrouping(messageMap, if hashes == [] then [] else messages)
  {
    if |hashes| == 0 {
      return map[];
    }
    messageMap := map[];
    for i := 0 to |messages|
      invariant IsGrouping(messageMap, messages[..i])
    {
      var message := messages[i];
      assert messages[..i + 1][..i] == messages[..i];
      var list := if message.hash in messageMap then messageMap[message.hash] else [];
      messageMap := messageMap[message.hash := list + [message]];
    }
    assert messages[..|messages|] == messages;
  }

  // ---- The page -----------------------------------------------------------------------------

  /** transactions.filter(tx => no messages of its own).map(tx => tx.hash) */
  function HashesNeedingPreload(transactions: seq<Transaction>): (hashes: seq<string>)
    ensures forall i :: 0 <= i < |transactions| && transactions[i].messages == [] ==> transactions[i].hash in hashes
  {
    if transactions == [] then []
    else
      var last := transactions[|transactions| - 1];
      HashesNeedingPreload(transactions[..|transactions| - 1]) + if last.messages == [] then [last.hash] else []
  }

  /** Only hashes of transactions without messages of their own are asked for. */
  lemma {:induction false} NeededOnly(transactions: seq<Transaction>, hash: string)
    requires hash in HashesNeedingPreload(transactions)
    ensures exists i :: 0 <= i < |transactions| && transactions[i] == Transaction(hash, [])
  {
    var n := |transactions| - 1;
    if transactions[n] != Transaction(hash, []) {
      NeededOnly(transactions[..n], hash);
    }
  }

  function SetOf(hashes: seq<string>): set<string> {
    set h | h in hashes
  }

  /** What the page shows for one transaction, given what its own query would return. */
  ghost predicate Shows(source: Source, tx: Transaction, table: Table) {
    if tx.messages != [] then source == FromColumn(tx.messages)
    else source.FromTable? && IsAnswer(source.rows, table, {tx.hash})
  }

  /** As Shows; and the very rows of the transaction's own query, if their order is settled. */
  ghost predicate ShowsOwn(source: Source, tx: Transaction, table: Table, single: string -> seq<Message>) {
    && Shows(source, tx, table)
    && (tx.messages == [] && NoTies(table, tx.hash) ==> source == FromTable(single(tx.hash)))
  }

  /**
   Shows one transaction of the page. single is what a query for one transaction returns, which
   getTransactionsAdvanced falls back to when the map has no such key and getTransactions
   replaces by an empty list.
   */
  method ShowTransaction(tx: Transaction, ghost table: Table, ghost hashes: set<string>, ghost queried: seq<Message>,
                         messageMap: map<string, seq<Message>>, single: string -> seq<Message>, fallBack: bool)
    returns (source: Source)
    requires IsAnswer(queried, table, hashes) && IsGrouping(messageMap, queried)
    requires tx.messages == [] ==> tx.hash in hashes
    requires IsAnswer(single(tx.hash), table, {tx.hash})
    ensures ShowsOwn(source, tx, table, single)
  {
    if tx.messages != [] {
      return FromColumn(tx.messages);
    }
    var found := if tx.hash in messageMap then messageMap[tx.hash] else if fallBack then single(tx.hash) else [];
    SelectAnswers(queried, table, hashes, tx.hash);
    if tx.hash !in messageMap {
      EmptyAnswer(single(tx.hash), table, tx.hash);
    }
    if NoTies(table, tx.hash) {
      AnswersAgree(found, single(tx.hash), table, tx.hash);
    }
    source := FromTable(found);
  }

  /** The page built from one query; queried is what that query returned. */
  method Page(transactions: seq<Transaction>, ghost table: Table, queried: seq<Message>,
              single: string -> seq<Message>, fallBack: bool)
    returns (page: seq<Source>)
    requires IsAnswer(queried, table, SetOf(HashesNeedingPreload(transactions)))
    requires forall h :: IsAnswer(single(h), table, {h})
    ensures |page| == |transactions|
    ensures forall i :: 0 <= i < |page| ==> ShowsOwn(page[i], transactions[i], table, single)
  {
    var hashes := HashesNeedingPreload(transactions);
    var messageMap := PreloadMessagesByHash(hashes, queried);
    if hashes == [] {
      NoHashesNoRows(queried, table);
    }
    page := [];
    for i := 0 to |transactions|
      invariant |page| == i
      invariant forall k :: 0 <= k < i ==> ShowsOwn(page[k], transactions[k], table, single)
    {
      var source := ShowTransaction(transactions[i], table, SetOf(hashes), queried, messageMap, single, fallBack);
      page := page + [source];
    }
  }

  lemma NoHashesNoRows(rows: seq<Message>, table: Table)
    requires IsAnswer(rows, table, {})
    ensures rows == []
  {
    assert multiset(rows) == multiset{};
    assert |multiset(rows)| == 0;
  }

  /** A transaction without rows has none in any answer. */
  lemma EmptyAnswer(rows: seq<Message>, table: Table, hash: string)
    requires IsAnswer([], table, {hash}) && IsAnswer(rows, table, {hash})
    ensures rows == []
  {
    var none: seq<Message> := [];
    assert forall m :: multiset(rows)[m] == multiset(none)[m];
    assert multiset(rows) == multiset(none);
    assert |multiset(rows)| == 0;
  }

  // ---- When one query is as good as many -----------------------------------------------------

  ghost predicate Untied(rows: seq<Message>) {
    forall i, j :: 0 <= i < j < |rows| && rows[i].index == rows[j].index ==> rows[i] == rows[j]
  }

  /** Two lists sorted by index with the same rows, none tied, are equal. */
  lemma {:induction false} SortedListsAgree(a: seq<Message>, b: seq<Message>)
    requires ByIndex(a) && ByIndex(b) && multiset(a) == multiset(b) && Untied(a)
    ensures a == b
  {
    assert |multiset(a)| == |multiset(b)|;
    if a != [] {
      var n := |a| - 1;
      SameLast(a, b);
      SameFront(a, b);
      assert a == a[..n] + [a[n]] && b == b[..n] + [b[n]];
      SortedListsAgree(a[..n], b[..n]);
    }
  }

  lemma SameLast(a: seq<Message>, b: seq<Message>)
    requires ByIndex(a) && ByIndex(b) && multiset(a) == multiset(b) && Untied(a) && a != [] && b != []
    ensures a[|a| - 1] == b[|b| - 1]
  {
    var m, n := a[|a| - 1], b[|b| - 1];
    assert m in multiset(b) && n in multiset(a);
    var i :| 0 <= i < |a| && a[i] == n;
    var j :| 0 <= j < |b| && b[j] == m;
  }

  lemma SameFront(a: seq<Message>, b: seq<Message>)
    requires multiset(a) == multiset(b) && |a| == |b| > 0 && a[|a| - 1] == b[|b| - 1]
    ensures multiset(a[..|a| - 1]) == multiset(b[..|b| - 1])
  {
    var n := |a| - 1;
    assert a == a[..n] + [a[n]] && b == b[..n] + [b[n]];
    forall m ensures multiset(a[..n])[m] == multiset(b[..n])[m] {
      assert multiset(a)[m] == multiset(a[..n])[m] + multiset([a[n]])[m];
      assert multiset(b)[m] == multiset(b[..n])[m] + multiset([b[n]])[m];
    }
  }

  lemma SameRows(a: seq<Message>, b: seq<Message>, table: Table, hash: string)
    requires IsAnswer(a, table, {hash}) && IsAnswer(b, table, {hash})
    ensures multiset(a) == multiset(b)
  {
    assert forall m :: multiset(a)[m] == multiset(b)[m];
  }

  lemma RowOf(rows: seq<Message>, table: Table, hash: string, i: nat)
    requires IsAnswer(rows, table, {hash}) && i < |rows|
    ensures rows[i] in table && rows[i].hash == hash
  {
    assert rows[i] in multiset(rows);
  }

  /** Without ties the query for one transaction has one answer. */
  lemma AnswersAgree(a: seq<Message>, b: seq<Message>, table: Table, hash: string)
    requires NoTies(table, hash) && IsAnswer(a, table, {hash}) && IsAnswer(b, table, {hash})
    ensures a == b
  {
    forall i, j | 0 <= i < j < |a| && a[i].index == a[j].index ensures a[i] == a[j] {
      RowOf(a, table, hash, i);
      RowOf(a, table, hash, j);
    }
    SameRows(a, b, table, hash);
    SortedListsAgree(a, b);
  }

  function Swap(rows: seq<Message>, i: nat, j: nat): seq<Message>
    requires i < |rows| && j < |rows|
  {
    rows[i := rows[j]][j := rows[i]]
  }

  lemma SwapAnswers(rows: seq<Message>, table: Table, hashes: set<string>, i: nat, j: nat)
    requires IsAnswer(rows, table, hashes)
    requires i < |rows| && j < |rows| && i != j && rows[i].index == rows[j].index
    ensures IsAnswer(Swap(rows, i, j), table, hashes)
  {
    var other := Swap(rows, i, j);
    assert forall k :: 0 <= k < |rows| ==> other[k].index == rows[k].index;
    SwapKeepsRows(rows, i, j);
  }

  lemma SwapKeepsRows(rows: seq<Message>, i: nat, j: nat)
    requires i < |rows| && j < |rows| && i != j
    ensures multiset(Swap(rows, i, j)) == multiset(rows)
  {
  }

  lemma Stands(rows: seq<Message>, m: Message) returns (i: nat)
    requires multiset(rows)[m] > 0
    ensures i < |rows| && rows[i] == m
  {
    assert m in rows;
    i :| i < |rows| && rows[i] == m;
  }

  /** A tie leaves the order open: swapping the two rows gives another answer. */
  lemma TieSwaps(rows: seq<Message>, table: Table, hash: string, m: Message, n: Message)
    requires IsAnswer(rows, table, {hash})
    requires m in table && n in table && m.hash == n.hash == hash && m.index == n.index && m != n
    ensures !OnlyAnswer(rows, table, hash)
  {
    var i := Stands(rows, m);
    var j := Stands(rows, n);
    SwapAnswers(rows, table, {hash}, i, j);
    assert Swap(rows, i, j)[j] != rows[j];
  }

  /**
   Grouping the one query gives, for a transaction, the very list that its own query returns,
   whichever orders the two queries choose, exactly when no two of its messages share an index.
   */
  lemma PreloadExactIffNoTies(rows: seq<Message>, table: Table, hashes: set<string>, hash: string)
    requires IsAnswer(rows, table, hashes) && hash in hashes
    ensures OnlyAnswer(Select(rows, hash), table, hash) <==> NoTies(table, hash)
  {
    SelectAnswers(rows, table, hashes, hash);
    if NoTies(table, hash) {
      forall other | IsAnswer(other, table, {hash}) ensures other == Select(rows, hash) {
        AnswersAgree(other, Select(rows, hash), table, hash);
      }
    } else {
      var m, n :| m in table && n in table && m.hash == n.hash == hash && m.index == n.index && m != n;
      TieSwaps(Select(rows, hash), table, hash, m, n);
    }
  }
}
