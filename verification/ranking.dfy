/** Ranking of (word, count) entries as the browser code does it:
    `Object.entries(frequency).filter(..).sort((a, b) => b[1] - a[1]).slice(0, n)`.
    `Array.prototype.sort` is stable, so the comparator `b[1] - a[1]` orders by
    count, descending, and entries of equal count keep their input order. */
module Ranking {
  import opened Seqs

  /** One `[word, count]` pair of `Object.entries(frequency)`. */
  datatype Entry = Entry(word: string, count: int)

  /** Counts never increase from one position to a later one. */
  predicate SortedDesc(s: seq<Entry>) {
    forall i, j :: 0 <= i < j < |s| ==> s[i].count >= s[j].count
  }

  /** The entries of `s` whose count is `c`, in their order in `s`. Two
      sequences agree on every `WithCount` exactly when their equal-count
      entries appear in the same relative order. */
  function WithCount(s: seq<Entry>, c: int): seq<Entry> {
    if s == [] then []
    else (if s[0].count == c then [s[0]] else []) + WithCount(s[1..], c)
  }

  /** `WithCount` distributes over concatenation. */
  lemma {:induction false} WithCountAppend(a: seq<Entry>, b: seq<Entry>, c: int)
    ensures WithCount(a + b, c) == WithCount(a, c) + WithCount(b, c)
  {
    if a != [] {
      assert (a + b)[1..] == a[1..] + b;
      WithCountAppend(a[1..], b, c);
    } else {
      assert a + b == b;
    }
  }

  /** Inserts `e` into a descending sequence, in front of every entry whose
      count is not larger than its own (so `e` stays ahead of the entries of
      equal count that came after it in the input). */
  function Insert(e: Entry, t: seq<Entry>): (r: seq<Entry>)
    requires SortedDesc(t)
    ensures SortedDesc(r)
    ensures |r| == |t| + 1
    ensures forall x :: x in r <==> x == e || x in t
    ensures multiset(r) == multiset(t) + multiset{e}
    ensures forall c :: WithCount(r, c) == if c == e.count then [e] + WithCount(t, c) else WithCount(t, c)
  {
    if t == [] || e.count >= t[0].count then
      InsertFront(e, t);
      [e] + t
    else
      var rest := Insert(e, t[1..]);
      InsertBehind(e, t, rest);
      [t[0]] + rest
  }

  lemma InsertFront(e: Entry, t: seq<Entry>)
    requires SortedDesc(t)
    requires t == [] || e.count >= t[0].count
    ensures SortedDesc([e] + t)
    ensures forall c :: WithCount([e] + t, c) == if c == e.count then [e] + WithCount(t, c) else WithCount(t, c)
  {
    forall c ensures WithCount([e] + t, c) == if c == e.count then [e] + WithCount(t, c) else WithCount(t, c) {
      WithCountAppend([e], t, c);
    }
  }

  lemma InsertBehind(e: Entry, t: seq<Entry>, rest: seq<Entry>)
    requires SortedDesc(t) && t != [] && e.count < t[0].count
    requires SortedDesc(rest)
    requires forall x :: x in rest <==> x == e || x in t[1..]
    requires multiset(rest) == multiset(t[1..]) + multiset{e}
    requires forall c :: WithCount(rest, c) == if c == e.count then [e] + WithCount(t[1..], c) else WithCount(t[1..], c)
    ensures SortedDesc([t[0]] + rest)
    ensures forall x :: x in [t[0]] + rest <==> x == e || x in t
    ensures multiset([t[0]] + rest) == multiset(t) + multiset{e}
    ensures forall c :: WithCount([t[0]] + rest, c) == if c == e.count then [e] + WithCount(t, c) else WithCount(t, c)
  {
    InsertBehindOrder(e, t, rest);
    InsertBehindContents(e, t, rest);
    InsertBehindClasses(e, t, rest);
  }

  lemma InsertBehindContents(e: Entry, t: seq<Entry>, rest: seq<Entry>)
    requires t != []
    requires forall x :: x in rest <==> x == e || x in t[1..]
    requires multiset(rest) == multiset(t[1..]) + multiset{e}
    ensures forall x :: x in [t[0]] + rest <==> x == e || x in t
    ensures multiset([t[0]] + rest) == multiset(t) + multiset{e}
  {
    assert t == [t[0]] + t[1..];
  }

  lemma InsertBehindClasses(e: Entry, t: seq<Entry>, rest: seq<Entry>)
    requires t != [] && e.count < t[0].count
    requires forall c :: WithCount(rest, c) == if c == e.count then [e] + WithCount(t[1..], c) else WithCount(t[1..], c)
    ensures forall c :: WithCount([t[0]] + rest, c) == if c == e.count then [e] + WithCount(t, c) else WithCount(t, c)
  {
    forall c ensures WithCount([t[0]] + rest, c) == if c == e.count then [e] + WithCount(t, c) else WithCount(t, c) {
      WithCountAppend([t[0]], rest, c);
      assert WithCount(t, c) == WithCount([t[0]], c) + WithCount(t[1..], c) by {
        assert t == [t[0]] + t[1..];
        WithCountAppend([t[0]], t[1..], c);
      }
    }
  }

  lemma InsertBehindOrder(e: Entry, t: seq<Entry>, rest: seq<Entry>)
    requires SortedDesc(t) && t != [] && e.count < t[0].count
    requires SortedDesc(rest)
    requires forall x :: x in rest <==> x == e || x in t[1..]
    ensures SortedDesc([t[0]] + rest)
  {
    forall j | 0 <= j < |rest| ensures t[0].count >= rest[j].count {
      assert rest[j] in rest;
      if rest[j] != e {
        var k :| 0 <= k < |t[1..]| && t[1..][k] == rest[j];
        assert t[k + 1] == rest[j];
      }
    }
    var r := [t[0]] + rest;
    forall i, j | 0 <= i < j < |r| ensures r[i].count >= r[j].count {
      if i > 0 {
        assert r[i] == rest[i - 1] && r[j] == rest[j - 1];
      } else {
        assert r[j] == rest[j - 1];
      }
    }
  }

  /** The stable sort by count, descending. */
  function SortDesc(s: seq<Entry>): (r: seq<Entry>)
    ensures SortedDesc(r)
    ensures |r| == |s|
    ensures multiset(r) == multiset(s)
    ensures forall c :: WithCount(r, c) == WithCount(s, c)
  {
    if s == [] then []
    else
      assert s == [s[0]] + s[1..];
      Insert(s[0], SortDesc(s[1..]))
  }

  /** The top `n` entries: a prefix of the stable descending sort
      (`.sort((a, b) => b[1] - a[1]).slice(0, n)`). */
  function TopN(s: seq<Entry>, n: nat): (r: seq<Entry>)
    ensures |r| == Min(n, |s|)
    ensures SortedDesc(r)
    ensures multiset(r) <= multiset(s)
    ensures forall c :: IsPrefix(WithCount(r, c), WithCount(s, c))
    ensures forall x, y :: x in r && y in multiset(s) - multiset(r) ==> x.count >= y.count
  {
    var sorted := SortDesc(s);
    var k := Min(n, |s|);
    PrefixWithCount(sorted, k);
    PrefixIsTop(sorted, k);
    sorted[..k]
  }

  /** A prefix of a descending sequence holds its largest counts: nothing
      left behind outranks anything kept. */
  lemma PrefixIsTop(sorted: seq<Entry>, k: nat)
    requires SortedDesc(sorted) && k <= |sorted|
    ensures SortedDesc(sorted[..k])
    ensures multiset(sorted[..k]) <= multiset(sorted)
    ensures forall x, y :: x in sorted[..k] && y in multiset(sorted) - multiset(sorted[..k]) ==> x.count >= y.count
  {
    assert sorted == sorted[..k] + sorted[k..];
    assert multiset(sorted) == multiset(sorted[..k]) + multiset(sorted[k..]);
    forall x, y | x in sorted[..k] && y in multiset(sorted) - multiset(sorted[..k])
      ensures x.count >= y.count
    {
      assert y in multiset(sorted[k..]);
      var i :| 0 <= i < k && sorted[i] == x;
      var j :| k <= j < |sorted| && sorted[j] == y;
    }
  }

  /** The equal-count entries of a prefix are a prefix of the equal-count
      entries of the whole sequence. */
  lemma {:induction false} PrefixWithCount(s: seq<Entry>, k: nat)
    requires k <= |s|
    ensures forall c :: IsPrefix(WithCount(s[..k], c), WithCount(s, c))
  {
    if k > 0 {
      PrefixWithCount(s[1..], k - 1);
      assert s[..k][1..] == s[1..][..k - 1];
      forall c ensures IsPrefix(WithCount(s[..k], c), WithCount(s, c)) {
        assert WithCount(s[..k], c) == (if s[0].count == c then [s[0]] else []) + WithCount(s[1..][..k - 1], c);
      }
    } else {
      assert s[..k] == [];
    }
  }

  /** A nonempty `WithCount(s, c)` witnesses an entry of count `c` in `s`. */
  lemma {:induction false} WithCountWitness(s: seq<Entry>, c: int)
    requires WithCount(s, c) != []
    ensures exists i :: 0 <= i < |s| && s[i].count == c
  {
    if s[0].count != c {
      WithCountWitness(s[1..], c);
      var i :| 0 <= i < |s[1..]| && s[1..][i].count == c;
      assert s[i + 1].count == c;
    }
  }

  /** The first entry of a sequence heads the class of its own count. */
  lemma HeadLeadsItsClass(s: seq<Entry>)
    requires s != []
    ensures WithCount(s, s[0].count) == [s[0]] + WithCount(s[1..], s[0].count)
  {
  }

  /** Stable descending order is determined by the input: any two sequences
      that are sorted by count, descending, and keep every equal-count class in
      the same order are equal. So `SortDesc` is the only stable sort. */
  lemma {:induction false} StableSortUnique(a: seq<Entry>, b: seq<Entry>)
    requires SortedDesc(a) && SortedDesc(b)
    requires forall c :: WithCount(a, c) == WithCount(b, c)
    ensures a == b
  {
    if a == [] || b == [] {
      if a != [] {
        HeadLeadsItsClass(a);
        assert false;
      } else if b != [] {
        HeadLeadsItsClass(b);
        assert false;
      }
    } else {
      SameHead(a, b);
      SameTailClasses(a, b);
      StableSortUnique(a[1..], b[1..]);
      assert a == [a[0]] + a[1..] && b == [b[0]] + b[1..];
    }
  }

  /** Both sequences start with the same entry: the first entry of the
      highest count class. */
  lemma SameHead(a: seq<Entry>, b: seq<Entry>)
    requires a != [] && b != []
    requires SortedDesc(a) && SortedDesc(b)
    requires forall c :: WithCount(a, c) == WithCount(b, c)
    ensures a[0] == b[0]
  {
    var ca, cb := a[0].count, b[0].count;
    HeadLeadsItsClass(a);
    HeadLeadsItsClass(b);
    WithCountWitness(a, cb);
    WithCountWitness(b, ca);
    assert ca == cb;
    assert WithCount(a, ca)[0] == a[0];
  }

  /** With equal heads, the tails agree on every count class too. */
  lemma SameTailClasses(a: seq<Entry>, b: seq<Entry>)
    requires a != [] && b != [] && a[0] == b[0]
    requires forall c :: WithCount(a, c) == WithCount(b, c)
    ensures forall c :: WithCount(a[1..], c) == WithCount(b[1..], c)
  {
    forall c ensures WithCount(a[1..], c) == WithCount(b[1..], c) {
      var head := if a[0].count == c then [a[0]] else [];
      assert WithCount(a, c) == head + WithCount(a[1..], c);
      assert WithCount(b, c) == head + WithCount(b[1..], c);
      assert (head + WithCount(a[1..], c))[|head|..] == WithCount(a[1..], c);
      assert (head + WithCount(b[1..], c))[|head|..] == WithCount(b[1..], c);
    }
  }

  /** Sorting an already stably-descending sequence changes nothing. */
  lemma SortDescIdempotent(s: seq<Entry>)
    requires SortedDesc(s)
    ensures SortDesc(s) == s
  {
    StableSortUnique(SortDesc(s), s);
  }
}
