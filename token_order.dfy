/**
  The token records of the ledger and the order get_tokens puts them in:
  with sort_by 'value' a stable sort by float(x.get('value', 0)), with
  sort_by 'date' a stable sort by x.get('purchase_date', ''), both with
  reverse=True, and otherwise the order in which they were collected.
 */
module TokenOrder {
  import opened Results
  import opened Text

  /** A Redis hash as hgetall returns it: field name to field value. */
  type Record = map<string, string>

  /** What a sort compares: a number for sort_by 'value', a str for sort_by 'date'. */
  datatype SortKey = Amount(amount: real) | Stamp(stamp: string)

  datatype TokenError = ValueNotNumeric(value: string)

  /** Python's <= on two keys of the same kind; numbers sort before strings (never mixed in one sort). */
  predicate KeyLe(a: SortKey, b: SortKey) {
    match (a, b)
    case (Amount(x), Amount(y)) => x <= y
    case (Stamp(x), Stamp(y)) => LexLe(x, y)
    case (Amount(_), Stamp(_)) => true
    case (Stamp(_), Amount(_)) => false
  }

  lemma KeyLeReflexive(a: SortKey)
    ensures KeyLe(a, a)
  {
    if a.Stamp? {
      LexLeReflexive(a.stamp);
    }
  }

  lemma KeyLeTotal(a: SortKey, b: SortKey)
    ensures KeyLe(a, b) || KeyLe(b, a)
  {
    if a.Stamp? && b.Stamp? {
      LexLeTotal(a.stamp, b.stamp);
    }
  }

  lemma KeyLeTransitive(a: SortKey, b: SortKey, c: SortKey)
    requires KeyLe(a, b) && KeyLe(b, c)
    ensures KeyLe(a, c)
  {
    if a.Stamp? && b.Stamp? && c.Stamp? {
      LexLeTransitive(a.stamp, b.stamp, c.stamp);
    }
  }

  lemma KeyLeAntisymmetric(a: SortKey, b: SortKey)
    requires KeyLe(a, b) && KeyLe(b, a)
    ensures a == b
  {
    if a.Stamp? && b.Stamp? {
      LexLeAntisymmetric(a.stamp, b.stamp);
    }
  }

  /** float(x.get('value', 0)); None where float() raises. */
  function ValueOf(r: Record): Option<real> {
    if "value" in r then ParseDecimal(r["value"]) else Some(0.0)
  }

  /** x.get('purchase_date', ''). */
  function DateOf(r: Record): string {
    if "purchase_date" in r then r["purchase_date"] else ""
  }

  /** float() accepts the record's value (or the default 0). */
  predicate Numeric(r: Record) {
    ValueOf(r).Some?
  }

  predicate AllValuesNumeric(tokens: seq<Record>) {
    forall i :: 0 <= i < |tokens| ==> Numeric(tokens[i])
  }

  /** The index of the first record ok rejects, or |s| when there is none. */
  function FirstFailing(ok: Record -> bool, s: seq<Record>): (i: nat)
    ensures i <= |s|
    ensures forall m :: 0 <= m < i ==> ok(s[m])
    ensures i < |s| ==> !ok(s[i])
  {
    if s == [] then 0
    else if !ok(s[0]) then 0
    else
      var tail := s[1..];
      var i := FirstFailing(ok, tail);
      assert forall m :: 0 <= m < i ==> tail[m] == s[m + 1];
      i + 1
  }

  /**
    The value whose ValueError the sort raises. CPython computes the keys in
    list order before comparing any, so it is the value of the first record
    float() rejects.
   */
  function FirstNonNumeric(tokens: seq<Record>): (r: Option<string>)
    ensures r.None? <==> AllValuesNumeric(tokens)
    ensures r.Some? ==> FirstFailing(Numeric, tokens) < |tokens| && "value" in tokens[FirstFailing(Numeric, tokens)]
                        && r.value == tokens[FirstFailing(Numeric, tokens)]["value"]
    ensures r.Some? ==> ParseDecimal(r.value).None?
  {
    var i := FirstFailing(Numeric, tokens);
    if i == |tokens| then None
    else
      assert !Numeric(tokens[i]);
      Some(tokens[i]["value"])
  }

  /**
    The key of sort_by 'value': float(x.get('value', 0)). A value float()
    rejects never reaches a sort (Arrange fails first), so the 0 given to
    it here is never compared.
   */
  function ValueKey(r: Record): SortKey {
    Amount(match ValueOf(r) case Some(v) => v case None => 0.0)
  }

  /** The key of sort_by 'date': x.get('purchase_date', ''). */
  function DateKey(r: Record): SortKey {
    Stamp(DateOf(r))
  }

  /** Non-increasing by key, as list.sort(reverse=True) leaves a list. */
  predicate SortedDesc(key: Record -> SortKey, s: seq<Record>) {
    forall i, j :: 0 <= i < j < |s| ==> KeyLe(key(s[j]), key(s[i]))
  }

  /** The records of s whose key is k, in the order s has them. */
  function WithKey(key: Record -> SortKey, s: seq<Record>, k: SortKey): seq<Record> {
    if s == [] then []
    else (if key(s[0]) == k then [s[0]] else []) + WithKey(key, s[1..], k)
  }

  /**
    Places x in front of the first element whose key is not greater than
    x's, so that x precedes the records it ties with.
   */
  function Insert(key: Record -> SortKey, x: Record, t: seq<Record>): seq<Record> {
    if t == [] then [x]
    else if KeyLe(key(t[0]), key(x)) then [x] + t
    else [t[0]] + Insert(key, x, t[1..])
  }

  /** list.sort(key=..., reverse=True): a stable sort into non-increasing key order. */
  function SortDesc(key: Record -> SortKey, s: seq<Record>): seq<Record> {
    if s == [] then [] else Insert(key, s[0], SortDesc(key, s[1..]))
  }

  lemma {:induction false} InsertPermutes(key: Record -> SortKey, x: Record, t: seq<Record>)
    ensures multiset(Insert(key, x, t)) == multiset(t) + multiset{x}
  {
    if t == [] {
      assert Insert(key, x, t) == [x];
    } else {
      var head, tail := t[0], t[1..];
      assert t == [head] + tail;
      if KeyLe(key(head), key(x)) {
        assert Insert(key, x, t) == [x] + t;
      } else {
        var rest := Insert(key, x, tail);
        assert Insert(key, x, t) == [head] + rest;
        InsertPermutes(key, x, tail);
        assert multiset([head] + rest) == multiset{head} + multiset(rest);
        assert multiset(t) == multiset{head} + multiset(tail);
      }
    }
  }

  lemma {:induction false} InsertKeepsSorted(key: Record -> SortKey, x: Record, t: seq<Record>)
    requires SortedDesc(key, t)
    ensures SortedDesc(key, Insert(key, x, t))
  {
    if t == [] {
      assert Insert(key, x, t) == [x];
    } else if KeyLe(key(t[0]), key(x)) {
      assert Insert(key, x, t) == [x] + t;
      SortedBelowHead(key, t, key(x));
      ConsKeepsSorted(key, x, t);
    } else {
      var tail := Insert(key, x, t[1..]);
      assert Insert(key, x, t) == [t[0]] + tail;
      SortedTail(key, t);
      InsertKeepsSorted(key, x, t[1..]);
      KeyLeTotal(key(t[0]), key(x));
      KeyLeReflexive(key(t[0]));
      SortedBelowHead(key, t, key(t[0]));
      assert forall m :: 0 <= m < |t[1..]| ==> KeyLe(key(t[1..][m]), key(t[0])) by {
        forall m | 0 <= m < |t[1..]| ensures KeyLe(key(t[1..][m]), key(t[0])) {
          assert t[1..][m] == t[m + 1];
        }
      }
      InsertKeepsBound(key, x, t[1..], key(t[0]));
      ConsKeepsSorted(key, t[0], tail);
    }
  }

  lemma SortedTail(key: Record -> SortKey, t: seq<Record>)
    requires t != [] && SortedDesc(key, t)
    ensures SortedDesc(key, t[1..])
  {
    forall i, j | 0 <= i < j < |t[1..]| ensures KeyLe(key(t[1..][j]), key(t[1..][i])) {
      assert t[1..][i] == t[i + 1] && t[1..][j] == t[j + 1];
    }
  }

  /** Every key of a non-increasing list is at most b when its first key is. */
  lemma SortedBelowHead(key: Record -> SortKey, t: seq<Record>, b: SortKey)
    requires t != [] && SortedDesc(key, t) && KeyLe(key(t[0]), b)
    ensures forall m :: 0 <= m < |t| ==> KeyLe(key(t[m]), b)
  {
    forall m | 0 < m < |t| ensures KeyLe(key(t[m]), b) {
      KeyLeTransitive(key(t[m]), key(t[0]), b);
    }
  }

  /** A record no smaller than every key of a non-increasing list can go in front of it. */
  lemma ConsKeepsSorted(key: Record -> SortKey, x: Record, t: seq<Record>)
    requires SortedDesc(key, t)
    requires forall m :: 0 <= m < |t| ==> KeyLe(key(t[m]), key(x))
    ensures SortedDesc(key, [x] + t)
  {
    var r := [x] + t;
    forall i, j | 0 <= i < j < |r| ensures KeyLe(key(r[j]), key(r[i])) {
      assert r[j] == t[j - 1];
      if i > 0 {
        assert r[i] == t[i - 1];
      }
    }
  }

  /** Inserting a record no greater than b into records no greater than b keeps every key at most b. */
  lemma {:induction false} InsertKeepsBound(key: Record -> SortKey, x: Record, t: seq<Record>, b: SortKey)
    requires KeyLe(key(x), b)
    requires forall m :: 0 <= m < |t| ==> KeyLe(key(t[m]), b)
    ensures forall m :: 0 <= m < |Insert(key, x, t)| ==> KeyLe(key(Insert(key, x, t)[m]), b)
  {
    if t == [] {
      assert Insert(key, x, t) == [x];
    } else if KeyLe(key(t[0]), key(x)) {
      var r := [x] + t;
      assert Insert(key, x, t) == r;
      forall m | 0 <= m < |r| ensures KeyLe(key(r[m]), b) {
        if m > 0 {
          assert r[m] == t[m - 1];
        }
      }
    } else {
      var tail := Insert(key, x, t[1..]);
      InsertKeepsBound(key, x, t[1..], b);
      var r := [t[0]] + tail;
      assert Insert(key, x, t) == r;
      forall m | 0 <= m < |r| ensures KeyLe(key(r[m]), b) {
        if m > 0 {
          assert r[m] == tail[m - 1];
        }
      }
    }
  }

  /** Sorting yields non-increasing keys. */
  lemma {:induction false} SortDescSorted(key: Record -> SortKey, s: seq<Record>)
    ensures SortedDesc(key, SortDesc(key, s))
  {
    if s != [] {
      SortDescSorted(key, s[1..]);
      InsertKeepsSorted(key, s[0], SortDesc(key, s[1..]));
    }
  }

  /** Sorting rearranges the records: each one kept, none added. */
  lemma {:induction false} SortDescPermutes(key: Record -> SortKey, s: seq<Record>)
    ensures multiset(SortDesc(key, s)) == multiset(s)
  {
    if s != [] {
      SortDescPermutes(key, s[1..]);
      InsertPermutes(key, s[0], SortDesc(key, s[1..]));
      assert s == [s[0]] + s[1..];
    }
  }

  lemma WithKeyOfCons(key: Record -> SortKey, x: Record, s: seq<Record>, k: SortKey)
    ensures WithKey(key, [x] + s, k) == (if key(x) == k then [x] else []) + WithKey(key, s, k)
  {
    assert ([x] + s)[1..] == s;
  }

  lemma {:induction false} WithKeyOfInsert(key: Record -> SortKey, x: Record, t: seq<Record>, k: SortKey)
    ensures WithKey(key, Insert(key, x, t), k) == (if key(x) == k then [x] else []) + WithKey(key, t, k)
  {
    if t == [] {
    } else if KeyLe(key(t[0]), key(x)) {
      WithKeyOfCons(key, x, t, k);
    } else {
      WithKeyOfInsert(key, x, t[1..], k);
      WithKeyPastGreater(key, x, t, k);
    }
  }

  /** The step of WithKeyOfInsert where x moves past t[0], whose key is greater. */
  lemma WithKeyPastGreater(key: Record -> SortKey, x: Record, t: seq<Record>, k: SortKey)
    requires t != [] && !KeyLe(key(t[0]), key(x))
    requires WithKey(key, Insert(key, x, t[1..]), k) == (if key(x) == k then [x] else []) + WithKey(key, t[1..], k)
    ensures WithKey(key, Insert(key, x, t), k) == (if key(x) == k then [x] else []) + WithKey(key, t, k)
  {
    var tail := Insert(key, x, t[1..]);
    var rest := WithKey(key, t[1..], k);
    assert Insert(key, x, t) == [t[0]] + tail;
    assert t == [t[0]] + t[1..];
    WithKeyOfCons(key, t[0], tail, k);
    WithKeyOfCons(key, t[0], t[1..], k);
    if key(x) == k {
      KeyLeReflexive(key(x));
      assert key(t[0]) != k;
      assert WithKey(key, Insert(key, x, t), k) == [] + WithKey(key, tail, k);
      assert WithKey(key, t, k) == [] + rest;
      assert WithKey(key, tail, k) == [x] + rest;
    } else {
      assert WithKey(key, tail, k) == [] + rest;
      assert rest == WithKey(key, tail, k);
    }
  }

  /** The sort is stable: records with one key keep their relative order. */
  lemma {:induction false} SortDescStable(key: Record -> SortKey, s: seq<Record>, k: SortKey)
    ensures WithKey(key, SortDesc(key, s), k) == WithKey(key, s, k)
  {
    if s != [] {
      SortDescStable(key, s[1..], k);
      WithKeyOfInsert(key, s[0], SortDesc(key, s[1..]), k);
    }
  }

  /** A list already in non-increasing key order is left as it is. */
  lemma {:induction false} SortDescOfSorted(key: Record -> SortKey, s: seq<Record>)
    requires SortedDesc(key, s)
    ensures SortDesc(key, s) == s
  {
    if s != [] {
      assert SortedDesc(key, s[1..]);
      SortDescOfSorted(key, s[1..]);
      if |s| > 1 {
        assert KeyLe(key(s[1]), key(s[0]));
        assert s[1..][0] == s[1];
      }
      assert s == [s[0]] + s[1..];
    }
  }

  /** Lines 53-57: how get_tokens orders the collected records before paging. */
  function Arrange(tokens: seq<Record>, sortBy: string): (r: Result<seq<Record>, TokenError>)
    ensures r.Failure? <==> sortBy == "value" && !AllValuesNumeric(tokens)
    ensures r.Failure? ==> ParseDecimal(r.error.value).None?
    ensures r.Success? ==> multiset(r.value) == multiset(tokens) && |r.value| == |tokens|
    ensures r.Success? && sortBy == "value" ==> r.value == SortDesc(ValueKey, tokens) && SortedDesc(ValueKey, r.value)
    ensures r.Success? && sortBy == "date" ==> r.value == SortDesc(DateKey, tokens) && SortedDesc(DateKey, r.value)
    ensures sortBy != "value" && sortBy != "date" ==> r == Success(tokens)
  {
    if sortBy == "value" then
      match FirstNonNumeric(tokens)
      case Some(bad) => Failure(ValueNotNumeric(bad))
      case None =>
        SortDescPermutes(ValueKey, tokens);
        assert |SortDesc(ValueKey, tokens)| == |multiset(tokens)|;
        SortDescSorted(ValueKey, tokens);
        Success(SortDesc(ValueKey, tokens))
    else if sortBy == "date" then
      SortDescPermutes(DateKey, tokens);
      assert |SortDesc(DateKey, tokens)| == |multiset(tokens)|;
      SortDescSorted(DateKey, tokens);
      Success(SortDesc(DateKey, tokens))
    else
      Success(tokens)
  }

  /** With sort_by 'date': newest purchase_date first, a missing date compared as ''. */
  lemma ArrangeByDate(tokens: seq<Record>, i: int, j: int)
    requires 0 <= i < j < |tokens|
    ensures Arrange(tokens, "date").Success?
    ensures var r := Arrange(tokens, "date").value;
            |r| == |tokens| && multiset(r) == multiset(tokens) && LexLe(DateOf(r[j]), DateOf(r[i]))
  {
    var r := Arrange(tokens, "date").value;
    assert KeyLe(DateKey(r[j]), DateKey(r[i]));
  }
}
