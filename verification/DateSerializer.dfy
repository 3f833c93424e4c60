/**
 serializeDates rewrites the dates of a JSON tree as ISO strings. The calendar, that is how a
 string is read as an instant and how an instant is written, is a parameter.
 */
module DateSerializer {
  import opened Wrappers

  /** The instants a JavaScript Date can hold, in milliseconds around 1970. */
  type Time = t: int | -8_640_000_000_000_000 <= t <= 8_640_000_000_000_000

  /** A Date made from an unreadable string holds no time: toISOString then throws. */
  datatype Json =
    | Null
    | Undefined
    | Bool(b: bool)
    | Num(n: real)
    | Str(s: string)
    | Date(time: Option<Time>)
    | Arr(items: seq<Json>)
    | Obj(entries: seq<(string, Json)>)

  datatype Outcome<T> = Returns(value: T) | Throws

  datatype Calendar = Calendar(parse: string -> Option<Time>, iso: Time -> string)

  /** Writing an instant and reading it back gives the same instant; the empty string is no date. */
  ghost predicate Lawful(c: Calendar) {
    && c.parse("") == None
    && forall t: Time :: c.parse(c.iso(t)) == Some(t)
  }

  // ---- Which keys hold dates --------------------------------------------------------------

  /**
   toLowerCase on ASCII letters. No other letter has a lower case that could complete one of
   the words below.
   */
  function Lower(ch: char): char {
    if 'A' <= ch <= 'Z' then ch + 32 as char else ch
  }

  predicate Contains(key: string, word: string) {
    exists i :: 0 <= i <= |key| - |word| && StandsAt(key, word, i)
  }

  predicate StandsAt(key: string, word: string, i: nat)
    requires i <= |key|
  {
    word <= key[i..]
  }

  predicate DateLike(key: string) {
    var lower := seq(|key|, i requires 0 <= i < |key| => Lower(key[i]));
    || Contains(lower, "date")
    || Contains(lower, "time")
    || Contains(lower, "timestamp")
    || Contains(lower, "created")
    || Contains(lower, "updated")
    || Contains(lower, "jailed_until")
  }

  // ---- What is computed -------------------------------------------------------------------

  /** serializeDate: everything but a Date and a readable string becomes null. */
  function SerializeDate(c: Calendar, v: Json): Outcome<Json> {
    match v
    case Str(s) => Returns(if s != "" && c.parse(s).Some? then Str(c.iso(c.parse(s).value)) else Null)
    case Date(time) => if time.Some? then Returns(Str(c.iso(time.value))) else Throws
    case _ => Returns(Null)
  }

  function Serialize(c: Calendar, j: Json): Outcome<Json>
    decreases j
  {
    match j
    case Date(time) => if time.Some? then Returns(Str(c.iso(time.value))) else Throws
    case Arr(items) =>
      var r := SerializeItems(c, items);
      if r.Throws? then Throws else Returns(Arr(r.value))
    case Obj(entries) =>
      var r := SerializeEntries(c, entries);
      if r.Throws? then Throws else Returns(Obj(r.value))
    case _ => Returns(j)
  }

  function SerializeEntry(c: Calendar, e: (string, Json)): Outcome<Json>
    decreases e, 0
  {
    if DateLike(e.0) then SerializeDate(c, e.1) else Serialize(c, e.1)
  }

  function SerializeItems(c: Calendar, items: seq<Json>): (r: Outcome<seq<Json>>)
    ensures r.Returns? ==> |r.value| == |items|
    ensures r.Returns? <==> forall i :: 0 <= i < |items| ==> Serialize(c, items[i]).Returns?
    ensures r.Returns? ==> forall i :: 0 <= i < |items| ==> Serialize(c, items[i]) == Returns(r.value[i])
    decreases items
  {
    if items == [] then Returns([])
    else
      var head := Serialize(c, items[0]);
      if head.Throws? then Throws
      else
        var tail := SerializeItems(c, items[1..]);
        if tail.Throws? then Throws else Returns([head.value] + tail.value)
  }

  function SerializeEntries(c: Calendar, entries: seq<(string, Json)>): (r: Outcome<seq<(string, Json)>>)
    ensures r.Returns? ==> |r.value| == |entries|
    ensures r.Returns? <==> forall i :: 0 <= i < |entries| ==> SerializeEntry(c, entries[i]).Returns?
    ensures r.Returns? ==> forall i :: 0 <= i < |entries| ==>
              r.value[i].0 == entries[i].0 && SerializeEntry(c, entries[i]) == Returns(r.value[i].1)
    decreases entries
  {
    if entries == [] then Returns([])
    else
      var head := SerializeEntry(c, entries[0]);
      if head.Throws? then Throws
      else
        var tail := SerializeEntries(c, entries[1..]);
        if tail.Throws? then Throws else Returns([(entries[0].0, head.value)] + tail.value)
  }

  // ---- The program ------------------------------------------------------------------------

  /** serialized[key] = value: an object holds a key once. */
  function Assign(entries: seq<(string, Json)>, key: string, value: Json): (r: seq<(string, Json)>)
    ensures (forall i :: 0 <= i < |entries| ==> entries[i].0 != key) ==> r == entries + [(key, value)]
  {
    if entries == [] then [(key, value)]
    else if entries[0].0 == key then [(key, value)] + entries[1..]
    else [entries[0]] + Assign(entries[1..], key, value)
  }

  /** Every object in the tree holds each of its keys once. */
  ghost predicate KeysOnce(j: Json)
    decreases j
  {
    match j
    case Arr(items) => forall i :: 0 <= i < |items| ==> KeysOnce(items[i])
    case Obj(entries) =>
      && (forall i, k :: 0 <= i < k < |entries| ==> entries[i].0 != entries[k].0)
      && forall i :: 0 <= i < |entries| ==> KeysOnce(entries[i].1)
    case _ => true
  }

  lemma {:induction false} ItemsSplit(c: Calendar, items: seq<Json>, n: nat)
    requires n < |items|
    requires SerializeItems(c, items[..n]).Returns?
    ensures Serialize(c, items[n]).Throws? ==> SerializeItems(c, items).Throws?
    ensures Serialize(c, items[n]).Returns? ==>
              SerializeItems(c, items[..n + 1])
              == Returns(SerializeItems(c, items[..n]).value + [Serialize(c, items[n]).value])
  {
    var upTo := items[..n + 1];
    assert forall i :: 0 <= i < n ==> items[..n][i] == upTo[i];
    if Serialize(c, items[n]).Returns? {
      assert forall i :: 0 <= i < |upTo| ==> upTo[i] == if i < n then items[..n][i] else items[n];
      assert SerializeItems(c, upTo).Returns?;
      var short, long := SerializeItems(c, items[..n]).value, SerializeItems(c, upTo).value;
      forall i | 0 <= i < |upTo| ensures long[i] == (short + [Serialize(c, items[n]).value])[i] {
        assert Serialize(c, upTo[i]) == Returns(long[i]);
        if i < n {
          assert Serialize(c, items[..n][i]) == Returns(short[i]);
        }
      }
      assert long == short + [Serialize(c, items[n]).value];
    }
  }

  lemma {:induction false} EntriesSplit(c: Calendar, entries: seq<(string, Json)>, n: nat)
    requires n < |entries|
    requires SerializeEntries(c, entries[..n]).Returns?
    ensures SerializeEntry(c, entries[n]).Throws? ==> SerializeEntries(c, entries).Throws?
    ensures SerializeEntry(c, entries[n]).Returns? ==>
              SerializeEntries(c, entries[..n + 1])
              == Returns(SerializeEntries(c, entries[..n]).value
                         + [(entries[n].0, SerializeEntry(c, entries[n]).value)])
  {
    var upTo := entries[..n + 1];
    if SerializeEntry(c, entries[n]).Returns? {
      assert forall i :: 0 <= i < |upTo| ==> upTo[i] == if i < n then entries[..n][i] else entries[n];
      assert SerializeEntries(c, upTo).Returns?;
      var short, long := SerializeEntries(c, entries[..n]).value, SerializeEntries(c, upTo).value;
      forall i | 0 <= i < |upTo| ensures long[i] == (short + [(entries[n].0, SerializeEntry(c, entries[n]).value)])[i] {
        assert long[i].0 == upTo[i].0 && SerializeEntry(c, upTo[i]) == Returns(long[i].1);
        if i < n {
          assert short[i].0 == upTo[i].0 && SerializeEntry(c, entries[..n][i]) == Returns(short[i].1);
        }
      }
      assert long == short + [(entries[n].0, SerializeEntry(c, entries[n]).value)];
    }
  }

  method SerializeDates(c: Calendar, obj: Json) returns (r: Outcome<Json>)
    requires KeysOnce(obj)
    ensures r == Serialize(c, obj)
    decreases obj
  {
    match obj
    case Date(time) => r := SerializeDate(c, obj);
    case Arr(items) =>
      var mapped: seq<Json> := [];
      for i := 0 to |items|
        invariant SerializeItems(c, items[..i]) == Returns(mapped)
      {
        var item := SerializeDates(c, items[i]);
        ItemsSplit(c, items, i);
        if item.Throws? {
          return Throws;
        }
        mapped := mapped + [item.value];
      }
      assert items[..|items|] == items;
      r := Returns(Arr(mapped));
    case Obj(entries) =>
      var serialized: seq<(string, Json)> := [];
      for i := 0 to |entries|
        invariant SerializeEntries(c, entries[..i]) == Returns(serialized)
      {
        var (key, value) := entries[i];
        var field;
        if DateLike(key) {
          field := SerializeDate(c, value);
        } else {
          field := SerializeDates(c, value);
        }
        EntriesSplit(c, entries, i);
        if field.Throws? {
          return Throws;
        }
        assert forall k :: 0 <= k < i ==> serialized[k].0 == entries[..i][k].0;
        serialized := Assign(serialized, key, field.value);
      }
      assert entries[..|entries|] == entries;
      r := Returns(Obj(serialized));
    case _ => r := Returns(obj);
  }

  // ---- What it means ------------------------------------------------------------------------

  /** The instant that a date field stands for, if any. */
  function Instant(c: Calendar, v: Json): Option<Time> {
    match v
    case Str(s) => c.parse(s)
    case Date(time) => time
    case _ => None
  }

  /** A date field as serializeDate leaves it: null, or the ISO string of an instant. */
  ghost predicate NormalDate(c: Calendar, v: Json) {
    v == Null || exists t: Time :: v == Str(c.iso(t))
  }

  /** No Date is left, and each field under a date-like key is null or an ISO string. */
  ghost predicate Normal(c: Calendar, j: Json)
    decreases j
  {
    match j
    case Date(_) => false
    case Arr(items) => forall i :: 0 <= i < |items| ==> Normal(c, items[i])
    case Obj(entries) =>
      forall i :: 0 <= i < |entries| ==>
        if DateLike(entries[i].0) then NormalDate(c, entries[i].1) else Normal(c, entries[i].1)
    case _ => true
  }

  ghost predicate HasDate(j: Json)
    decreases j
  {
    match j
    case Date(_) => true
    case Arr(items) => exists i :: 0 <= i < |items| && HasDate(items[i])
    case Obj(entries) => exists i :: 0 <= i < |entries| && HasDate(entries[i].1)
    case _ => false
  }

  /** An invalid Date where toISOString is called: not inside an array or object under a date-like key. */
  ghost predicate ReachesInvalidDate(j: Json)
    decreases j
  {
    match j
    case Date(time) => time.None?
    case Arr(items) => exists i :: 0 <= i < |items| && ReachesInvalidDate(items[i])
    case Obj(entries) =>
      exists i :: 0 <= i < |entries|
        && if DateLike(entries[i].0) then entries[i].1 == Date(None) else ReachesInvalidDate(entries[i].1)
    case _ => false
  }

  /**
   r has the same arrays and objects as j outside date fields, with the same lengths and keys;
   Dates keep their instant there, and other leaves are equal. Of a date field only its
   instant is compared: one that has none may have lost whatever it held.
   */
  ghost predicate Corresponds(c: Calendar, j: Json, r: Json)
    decreases j
  {
    match j
    case Date(time) => r.Str? && Instant(c, r) == time
    case Arr(items) =>
      r.Arr? && |r.items| == |items| && forall i :: 0 <= i < |items| ==> Corresponds(c, items[i], r.items[i])
    case Obj(entries) =>
      && r.Obj? && |r.entries| == |entries|
      && forall i :: 0 <= i < |entries| ==> FieldCorresponds(c, entries[i], r.entries[i])
    case _ => r == j
  }

  ghost predicate FieldCorresponds(c: Calendar, e: (string, Json), f: (string, Json))
    decreases e, 0
  {
    && f.0 == e.0
    && if DateLike(e.0) then NormalDate(c, f.1) && Instant(c, f.1) == Instant(c, e.1) else Corresponds(c, e.1, f.1)
  }

  /**
   Nothing is lost, at any depth and in date fields too: the same keys, lengths and leaves,
   where a Date or a readable date string may be written as another string of its instant.
   */
  ghost predicate Keeps(c: Calendar, j: Json, r: Json)
    decreases j
  {
    match j
    case Date(time) => time.Some? && r.Str? && c.parse(r.s) == time
    case Str(s) => r == j || (r.Str? && c.parse(s).Some? && c.parse(r.s) == c.parse(s))
    case Arr(items) =>
      r.Arr? && |r.items| == |items| && forall i :: 0 <= i < |items| ==> Keeps(c, items[i], r.items[i])
    case Obj(entries) =>
      && r.Obj? && |r.entries| == |entries|
      && (forall i :: 0 <= i < |entries| ==> r.entries[i].0 == entries[i].0)
      && forall i :: 0 <= i < |entries| ==> Keeps(c, entries[i].1, r.entries[i].1)
    case _ => r == j
  }

  /** Each date-like field that is reached is null, a Date that holds a time, or a readable date string. */
  ghost predicate OnlyDates(c: Calendar, j: Json)
    decreases j
  {
    match j
    case Arr(items) => forall i :: 0 <= i < |items| ==> OnlyDates(c, items[i])
    case Obj(entries) =>
      forall i :: 0 <= i < |entries| ==>
        if DateLike(entries[i].0) then IsDate(c, entries[i].1) else OnlyDates(c, entries[i].1)
    case _ => true
  }

  predicate IsDate(c: Calendar, v: Json) {
    v == Null || Instant(c, v).Some?
  }

  lemma DateKeptIff(c: Calendar, v: Json)
    requires Lawful(c) && SerializeDate(c, v).Returns?
    ensures Keeps(c, v, SerializeDate(c, v).value) <==> IsDate(c, v)
  {
    if Instant(c, v).Some? {
      var t := Instant(c, v).value;
      assert c.parse(c.iso(t)) == Some(t);
    }
  }

  /** Nothing is lost if and only if every date-like field that is reached holds a date or null. */
  lemma {:induction false} KeepsIffOnlyDates(c: Calendar, j: Json)
    requires Lawful(c) && Serialize(c, j).Returns?
    ensures Keeps(c, j, Serialize(c, j).value) <==> OnlyDates(c, j)
    decreases j
  {
    var r := Serialize(c, j).value;
    match j
    case Date(time) => assert c.parse(c.iso(time.value)) == Some(time.value);
    case Arr(items) =>
      forall i | 0 <= i < |items| ensures Keeps(c, items[i], r.items[i]) <==> OnlyDates(c, items[i]) {
        KeepsIffOnlyDates(c, items[i]);
        assert Serialize(c, items[i]) == Returns(r.items[i]);
      }
    case Obj(entries) =>
      forall i | 0 <= i < |entries|
        ensures r.entries[i].0 == entries[i].0
        ensures Keeps(c, entries[i].1, r.entries[i].1)
                <==> if DateLike(entries[i].0) then IsDate(c, entries[i].1) else OnlyDates(c, entries[i].1)
      {
        assert r.entries[i].0 == entries[i].0 && SerializeEntry(c, entries[i]) == Returns(r.entries[i].1);
        if DateLike(entries[i].0) {
          DateKeptIff(c, entries[i].1);
        } else {
          KeepsIffOnlyDates(c, entries[i].1);
        }
      }
    case _ =>
  }

  /** The field of a raw IBC transfer that looks like a date by its name: all of it is lost. */
  lemma TimeoutHeightIsLost(c: Calendar, height: Json)
    requires height.Obj? || height.Arr? || height.Num? || height.Bool?
    ensures var j := Obj([("timeout_height", height)]);
            Serialize(c, j) == Returns(Obj([("timeout_height", Null)])) && !OnlyDates(c, j)
  {
    var key := "timeout_height";
    var lower := seq(|key|, i requires 0 <= i < |key| => Lower(key[i]));
    assert lower == key && "time" <= lower[0..] && StandsAt(lower, "time", 0);
    var e := (key, height);
    var none: seq<(string, Json)> := [];
    assert [e][1..] == none && SerializeEntries(c, none) == Returns(none) && SerializeEntry(c, e) == Returns(Null);
    assert [(key, Null)] + none == [(key, Null)] && SerializeEntries(c, [e]) == Returns([(key, Null)]);
    assert Obj([e]).entries[0] == e;
  }

  lemma SerializeDateMeans(c: Calendar, v: Json)
    requires Lawful(c)
    ensures SerializeDate(c, v).Throws? <==> v == Date(None)
    ensures var r := SerializeDate(c, v);
            r.Returns? ==> NormalDate(c, r.value) && Instant(c, r.value) == Instant(c, v)
    ensures SerializeDate(c, v) == Returns(v) <==> NormalDate(c, v)
  {
    if v.Str? && v.s != "" && c.parse(v.s).Some? {
      var t := c.parse(v.s).value;
      assert c.parse(c.iso(t)) == Some(t);
    }
    if t: Time :| v == Str(c.iso(t)) {
      assert c.parse(c.iso(t)) == Some(t);
    }
  }

  /** It throws exactly when it reaches an invalid Date. */
  lemma {:induction false} ThrowsIffInvalid(c: Calendar, j: Json)
    ensures Serialize(c, j).Throws? <==> ReachesInvalidDate(j)
    decreases j
  {
    match j
    case Arr(items) =>
      forall i | 0 <= i < |items| ensures Serialize(c, items[i]).Throws? <==> ReachesInvalidDate(items[i]) {
        ThrowsIffInvalid(c, items[i]);
      }
      assert SerializeItems(c, items).Returns? <==> forall i :: 0 <= i < |items| ==> Serialize(c, items[i]).Returns?;
    case Obj(entries) =>
      forall i | 0 <= i < |entries|
        ensures SerializeEntry(c, entries[i]).Throws?
                <==> if DateLike(entries[i].0) then entries[i].1 == Date(None) else ReachesInvalidDate(entries[i].1)
      {
        ThrowsIffInvalid(c, entries[i].1);
      }
    case _ =>
  }

  /** The result is the same tree with every date in normal form: no key, length or instant is lost. */
  lemma {:induction false} ResultIsNormal(c: Calendar, j: Json)
    requires Lawful(c) && Serialize(c, j).Returns?
    ensures Normal(c, Serialize(c, j).value)
    ensures Corresponds(c, j, Serialize(c, j).value)
    decreases j
  {
    var r := Serialize(c, j).value;
    match j
    case Date(time) => assert c.parse(c.iso(time.value)) == Some(time.value);
    case Arr(items) =>
      forall i | 0 <= i < |items| ensures Normal(c, r.items[i]) && Corresponds(c, items[i], r.items[i]) {
        ResultIsNormal(c, items[i]);
        assert Serialize(c, items[i]) == Returns(r.items[i]);
      }
    case Obj(entries) =>
      forall i | 0 <= i < |entries|
        ensures FieldCorresponds(c, entries[i], r.entries[i])
        ensures if DateLike(r.entries[i].0) then NormalDate(c, r.entries[i].1) else Normal(c, r.entries[i].1)
      {
        assert r.entries[i].0 == entries[i].0 && SerializeEntry(c, entries[i]) == Returns(r.entries[i].1);
        if DateLike(entries[i].0) {
          SerializeDateMeans(c, entries[i].1);
        } else {
          ResultIsNormal(c, entries[i].1);
        }
      }
    case _ =>
  }

  /** The trees that serializeDates leaves alone are exactly those in normal form. */
  lemma {:induction false} FixedIffNormal(c: Calendar, j: Json)
    requires Lawful(c)
    ensures Serialize(c, j) == Returns(j) <==> Normal(c, j)
    decreases j
  {
    match j
    case Arr(items) =>
      forall i | 0 <= i < |items| ensures Serialize(c, items[i]) == Returns(items[i]) <==> Normal(c, items[i]) {
        FixedIffNormal(c, items[i]);
      }
      if Normal(c, j) {
        assert SerializeItems(c, items).value == items;
      }
    case Obj(entries) =>
      forall i | 0 <= i < |entries|
        ensures SerializeEntry(c, entries[i]) == Returns(entries[i].1)
                <==> if DateLike(entries[i].0) then NormalDate(c, entries[i].1) else Normal(c, entries[i].1)
      {
        SerializeDateMeans(c, entries[i].1);
        FixedIffNormal(c, entries[i].1);
      }
      if Normal(c, j) {
        assert SerializeEntries(c, entries).value == entries;
      }
    case _ =>
  }

  /** Serializing twice is serializing once. */
  lemma Idempotent(c: Calendar, j: Json)
    requires Lawful(c) && Serialize(c, j).Returns?
    ensures Serialize(c, Serialize(c, j).value) == Serialize(c, j)
  {
    ResultIsNormal(c, j);
    FixedIffNormal(c, Serialize(c, j).value);
  }

  lemma {:induction false} NormalHasNoDate(c: Calendar, j: Json)
    requires Normal(c, j)
    ensures !HasDate(j)
    decreases j
  {
    match j
    case Arr(items) =>
      forall i | 0 <= i < |items| ensures !HasDate(items[i]) {
        NormalHasNoDate(c, items[i]);
      }
    case Obj(entries) =>
      forall i | 0 <= i < |entries| ensures !HasDate(entries[i].1) {
        if !DateLike(entries[i].0) {
          NormalHasNoDate(c, entries[i].1);
        }
      }
    case _ =>
  }

  /** No Date is left anywhere in a result. */
  lemma NoDateRemains(c: Calendar, j: Json)
    requires Lawful(c) && Serialize(c, j).Returns?
    ensures !HasDate(Serialize(c, j).value)
  {
    ResultIsNormal(c, j);
    NormalHasNoDate(c, Serialize(c, j).value);
  }

  // ---- Which keys are date-like -------------------------------------------------------------

  /** The two are one ASCII letter in upper or lower case, or the same character. */
  predicate SameLetter(c: char, d: char) {
    || c == d
    || ('A' <= c <= 'Z' && d as int == c as int + 32)
    || ('A' <= d <= 'Z' && c as int == d as int + 32)
  }

  predicate SameButCase(s: string, t: string) {
    |s| == |t| && forall i :: 0 <= i < |s| ==> SameLetter(s[i], t[i])
  }

  /** The word, in whatever case, is in the key. */
  predicate HasWord(key: string, word: string) {
    exists i :: 0 <= i <= |key| - |word| && WordAt(key, word, i)
  }

  predicate WordAt(key: string, word: string, i: nat)
    requires i + |word| <= |key|
  {
    SameButCase(key[i..i + |word|], word)
  }

  lemma SameLetterIff(c: char, d: char)
    ensures SameLetter(c, d) <==> Lower(c) == Lower(d)
  {
  }

  function LowerAll(s: string): string {
    seq(|s|, i requires 0 <= i < |s| => Lower(s[i]))
  }

  lemma SameButCaseIff(s: string, t: string)
    ensures SameButCase(s, t) <==> LowerAll(s) == LowerAll(t)
  {
    if LowerAll(s) == LowerAll(t) {
      assert |s| == |LowerAll(s)| && |t| == |LowerAll(t)|;
      forall i | 0 <= i < |s| ensures SameLetter(s[i], t[i]) {
        assert LowerAll(s)[i] == LowerAll(t)[i];
        SameLetterIff(s[i], t[i]);
      }
    }
  }

  lemma ContainsIffHasWord(key: string, word: string)
    requires LowerAll(word) == word
    ensures Contains(LowerAll(key), word) <==> HasWord(key, word)
  {
    forall i: nat | i + |word| <= |key| ensures StandsAt(LowerAll(key), word, i) <==> WordAt(key, word, i) {
      var part := key[i..i + |word|];
      SameButCaseIff(part, word);
      assert LowerAll(part) == LowerAll(key)[i..i + |word|];
      assert word <= LowerAll(key)[i..] <==> LowerAll(key)[i..][..|word|] == word;
      assert LowerAll(key)[i..][..|word|] == LowerAll(key)[i..i + |word|];
    }
    if Contains(LowerAll(key), word) {
      var i :| 0 <= i <= |LowerAll(key)| - |word| && StandsAt(LowerAll(key), word, i);
      assert WordAt(key, word, i);
    }
    if HasWord(key, word) {
      var i :| 0 <= i <= |key| - |word| && WordAt(key, word, i);
      assert StandsAt(LowerAll(key), word, i);
    }
  }

  /** A word that begins with, or goes on with, another one brings that one along. */
  lemma WordInWord(s: string, word: string, part: string, from: nat)
    requires from + |part| <= |word| && word[from..from + |part|] == part
    ensures Contains(s, word) ==> Contains(s, part)
  {
    if i :| 0 <= i <= |s| - |word| && StandsAt(s, word, i) {
      assert s[i..][..|word|] == word;
      assert s[i + from..][..|part|] == word[from..from + |part|];
      assert StandsAt(s, part, i + from);
    }
  }

  /** A key is date-like if and only if it has one of four words in it, in whatever case. */
  lemma DateLikeIff(key: string)
    ensures DateLike(key) <==>
            HasWord(key, "date") || HasWord(key, "time") || HasWord(key, "created") || HasWord(key, "jailed_until")
  {
    var lower := LowerAll(key);
    assert LowerAll("date") == "date" && LowerAll("time") == "time";
    assert LowerAll("created") == "created" && LowerAll("jailed_until") == "jailed_until";
    ContainsIffHasWord(key, "date");
    ContainsIffHasWord(key, "time");
    ContainsIffHasWord(key, "created");
    ContainsIffHasWord(key, "jailed_until");
    assert "updated"[2..6] == "date" && "timestamp"[0..4] == "time";
    WordInWord(lower, "timestamp", "time", 0);
    WordInWord(lower, "updated", "date", 2);
  }

  /** Any key with such a word in it is date-like, whatever is around it. */
  lemma KeyWithWord(before: string, word: string, after: string, lower: string)
    requires lower in {"date", "time", "created", "jailed_until"} && SameButCase(word, lower)
    ensures DateLike(before + word + after)
  {
    var key := before + word + after;
    assert key[|before|..|before| + |lower|] == word;
    assert WordAt(key, lower, |before|);
    DateLikeIff(key);
  }

  /** The case of a key does not matter. */
  lemma CaseIrrelevant(a: string, b: string)
    requires SameButCase(a, b)
    ensures DateLike(a) <==> DateLike(b)
  {
    SameButCaseIff(a, b);
  }

  lemma NoWord(key: string, word: string)
    requires |word| >= 2
    requires forall i :: 0 <= i <= |key| - |word| ==> !SameLetter(key[i], word[0]) || !SameLetter(key[i + 1], word[1])
    ensures !HasWord(key, word)
  {
    forall i: nat | i <= |key| - |word| ensures !WordAt(key, word, i) {
      var part := key[i..i + |word|];
      assert part[0] == key[i] && part[1] == key[i + 1];
    }
  }

  /** The fields of transactions and messages that are no dates. */
  lemma PlainKeys(key: string)
    requires key in {"amount", "denom", "hash", "height", "memo", "success", "fee", "type", "value", "index",
                     "messages"}
    ensures !DateLike(key)
  {
    NoWord(key, "date");
    NoWord(key, "time");
    NoWord(key, "created");
    NoWord(key, "jailed_until");
    DateLikeIff(key);
  }

  /** A text, number or the like under any other key stays as it is. */
  lemma PlainFieldKept(c: Calendar, entries: seq<(string, Json)>, i: nat)
    requires i < |entries| && !DateLike(entries[i].0) && Serialize(c, Obj(entries)).Returns?
    requires !entries[i].1.Date? && !entries[i].1.Arr? && !entries[i].1.Obj?
    ensures Serialize(c, Obj(entries)).value.entries[i] == entries[i]
  {
    var (key, value) := entries[i];
    var r := SerializeEntries(c, entries).value;
    assert r[i].0 == key && SerializeEntry(c, entries[i]) == Returns(r[i].1);
    assert Serialize(c, value) == Returns(value);
    assert r[i] == (key, value);
  }

  /** A readable date string under a date-like key is written as the ISO string of its instant. */
  lemma DateFieldConverted(c: Calendar, entries: seq<(string, Json)>, i: nat, s: string)
    requires i < |entries| && DateLike(entries[i].0) && Serialize(c, Obj(entries)).Returns?
    requires entries[i].1 == Str(s) && s != "" && c.parse(s).Some?
    ensures Serialize(c, Obj(entries)).value.entries[i] == (entries[i].0, Str(c.iso(c.parse(s).value)))
  {
    var r := SerializeEntries(c, entries);
    assert r.value[i].0 == entries[i].0 && SerializeEntry(c, entries[i]) == Returns(r.value[i].1);
  }
}
