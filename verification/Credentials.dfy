/** Newest-first credential selection of notion_store.rs. */
module Credentials {
  datatype Credential = Credential(account: nat, workspace: string, created: int, updated: int, token: string)

  /** Strings compare by code point at the first difference, a proper prefix first. */
  predicate Before(a: string, b: string) {
    b != "" && (a == "" || a[0] < b[0] || (a[0] == b[0] && Before(a[1..], b[1..])))
  }

  lemma {:induction false} BeforeTotal(a: string, b: string)
    ensures Before(a, b) || a == b || Before(b, a)
    ensures !(Before(a, b) && Before(b, a)) && !Before(a, a)
    decreases |a|
  {
    if a != "" {
      if b != "" {
        BeforeTotal(a[1..], b[1..]);
        assert a[0] == b[0] && a[1..] == b[1..] ==> a == [a[0]] + a[1..] == b;
      }
      if a != b {
        BeforeTotal(a[1..], a[1..]);
      } else {
        BeforeTotal(a[1..], b[1..]);
      }
    }
  }

  /** The order of strings, by their first difference. */
  lemma {:induction false} BeforeMeans(a: string, b: string) returns (k: nat)
    ensures k <= |a| && k <= |b| && a[..k] == b[..k]
    ensures Before(a, b) <==> k < |b| && (k == |a| || a[k] < b[k])
    ensures k == |a| || k == |b| || a[k] != b[k]
  {
    if a == "" || b == "" || a[0] != b[0] {
      k := 0;
    } else {
      var rest := BeforeMeans(a[1..], b[1..]);
      k := rest + 1;
      assert a[..k] == [a[0]] + a[1..][..rest] && b[..k] == [b[0]] + b[1..][..rest];
    }
  }

  lemma {:induction false} BeforeTransitive(a: string, b: string, c: string)
    requires Before(a, b) && Before(b, c)
    ensures Before(a, c)
    decreases |a|
  {
    if a != "" && a[0] == b[0] == c[0] {
      BeforeTransitive(a[1..], b[1..], c[1..]);
    }
  }

  /** The comparator: newest update first, then newest creation, then workspace, then account. */
  predicate Precedes(a: Credential, b: Credential) {
    || a.updated > b.updated
    || (a.updated == b.updated && a.created > b.created)
    || (a.updated == b.updated && a.created == b.created && Before(a.workspace, b.workspace))
    || (a.updated == b.updated && a.created == b.created && a.workspace == b.workspace && a.account < b.account)
  }

  lemma PrecedesOrder(a: Credential, b: Credential, c: Credential)
    ensures !(Precedes(a, b) && Precedes(b, a))
    ensures Precedes(a, b) && Precedes(b, c) ==> Precedes(a, c)
    ensures Precedes(a, b) || Precedes(b, a) || (a.workspace == b.workspace && a.account == b.account)
  {
    BeforeTotal(a.workspace, b.workspace);
    if Before(a.workspace, b.workspace) && Before(b.workspace, c.workspace) {
      BeforeTransitive(a.workspace, b.workspace, c.workspace);
    }
  }

  ghost predicate Sorted(cs: seq<Credential>) {
    forall i, j :: 0 <= i < j < |cs| ==> !Precedes(cs[j], cs[i])
  }

  /** Latest update first; on a tie the latest creation; then the smaller workspace, then the smaller account. */
  ghost predicate NewestFirst(cs: seq<Credential>) {
    forall i, j :: 0 <= i < j < |cs| ==>
      var a, b := cs[i], cs[j];
      && b.updated <= a.updated
      && (b.updated == a.updated ==> b.created <= a.created)
      && (b.updated == a.updated && b.created == a.created ==> a.workspace == b.workspace || Before(a.workspace, b.workspace))
      && (b.updated == a.updated && b.created == a.created && a.workspace == b.workspace ==> a.account <= b.account)
  }

  lemma SortedIsNewestFirst(cs: seq<Credential>)
    ensures Sorted(cs) <==> NewestFirst(cs)
  {
    forall i, j | 0 <= i < j < |cs|
      ensures !Precedes(cs[j], cs[i]) <==>
                && cs[j].updated <= cs[i].updated
                && (cs[j].updated == cs[i].updated ==> cs[j].created <= cs[i].created)
                && (cs[j].updated == cs[i].updated && cs[j].created == cs[i].created ==>
                      cs[i].workspace == cs[j].workspace || Before(cs[i].workspace, cs[j].workspace))
                && (cs[j].updated == cs[i].updated && cs[j].created == cs[i].created && cs[i].workspace == cs[j].workspace ==>
                      cs[i].account <= cs[j].account)
    {
      BeforeTotal(cs[i].workspace, cs[j].workspace);
    }
  }

  /** One credential per account and workspace. */
  ghost predicate OnePerPair(cs: seq<Credential>) {
    forall i, j :: 0 <= i < j < |cs| ==> cs[i].account != cs[j].account || cs[i].workspace != cs[j].workspace
  }

  ghost predicate IsSortOf(result: seq<Credential>, input: seq<Credential>) {
    multiset(result) == multiset(input) && Sorted(result)
  }

  lemma {:induction false} PairsOfPermutation(a: seq<Credential>, x: Credential, y: Credential)
    requires OnePerPair(a) && x in a && y in a && x != y
    ensures x.account != y.account || x.workspace != y.workspace
  {
  }

  lemma SameHead(a: seq<Credential>, b: seq<Credential>, source: seq<Credential>)
    requires a != [] && b != [] && Sorted(a) && Sorted(b) && OnePerPair(source)
    requires multiset(a) == multiset(b) && multiset(a) <= multiset(source)
    ensures a[0] == b[0]
  {
    assert a[0] in multiset(a) && b[0] in multiset(b);
    assert a[0] in b && b[0] in a && a[0] in source && b[0] in source;
    var j :| 0 <= j < |b| && b[j] == a[0];
    var i :| 0 <= i < |a| && a[i] == b[0];
    if a[0] != b[0] {
      PairsOfPermutation(source, a[0], b[0]);
      PrecedesOrder(a[0], b[0], b[0]);
    }
  }

  lemma {:induction false} SortedUnique(a: seq<Credential>, b: seq<Credential>, source: seq<Credential>)
    requires Sorted(a) && Sorted(b) && OnePerPair(source)
    requires multiset(a) == multiset(b) && multiset(a) <= multiset(source)
    ensures a == b
    decreases |a|
  {
    assert |a| == |multiset(a)| == |multiset(b)| == |b|;
    if a != [] {
      SameHead(a, b, source);
      assert a == [a[0]] + a[1..] && b == [b[0]] + b[1..];
      assert multiset(a[1..]) == multiset(a) - multiset{a[0]};
      assert multiset(b[1..]) == multiset(b) - multiset{b[0]};
      SortedUnique(a[1..], b[1..], source);
    }
  }

  /**
   * Two cursors that yield the same credentials in different orders lead to the same sorted list, so the
   * credential picked first does not depend on the database's order.
   */
  lemma SelectionIsDeterministic(cursor1: seq<Credential>, cursor2: seq<Credential>, r1: seq<Credential>, r2: seq<Credential>)
    requires OnePerPair(cursor1) && multiset(cursor1) == multiset(cursor2)
    requires IsSortOf(r1, cursor1) && IsSortOf(r2, cursor2)
    ensures r1 == r2
    ensures forall i :: 0 <= i < |r1| ==> r1[0].updated >= r1[i].updated
  {
    SortedUnique(r1, r2, cursor1);
    forall i | 0 <= i < |r1| ensures r1[0].updated >= r1[i].updated {
      if i > 0 {
        assert !Precedes(r1[i], r1[0]);
      }
    }
  }

  // ---------------------------------------------------------------- reading the cursor

  datatype Result = Ok(credentials: seq<Credential>) | Err

  /** A document of the cursor, or the failure to read or decode it. */
  datatype Doc = Good(credential: Credential) | Bad

  function Insert(c: Credential, cs: seq<Credential>): seq<Credential> {
    if cs == [] || Precedes(c, cs[0]) then [c] + cs else [cs[0]] + Insert(c, cs[1..])
  }

  lemma InsertFirst(c: Credential, cs: seq<Credential>)
    requires Sorted(cs) && cs != [] && Precedes(c, cs[0])
    ensures Sorted([c] + cs)
  {
    var all := [c] + cs;
    forall i, j | 0 <= i < j < |all| ensures !Precedes(all[j], all[i]) {
      if i == 0 {
        PrecedesOrder(all[j], c, cs[0]);
        PrecedesOrder(c, cs[0], cs[0]);
        assert all[j] == cs[j - 1] && (j > 1 ==> !Precedes(cs[j - 1], cs[0]));
      } else {
        assert all[i] == cs[i - 1] && all[j] == cs[j - 1];
      }
    }
  }

  lemma InsertLater(c: Credential, head: Credential, rest: seq<Credential>, tail: seq<Credential>)
    requires Sorted([head] + rest) && !Precedes(c, head)
    requires Sorted(tail) && multiset(tail) == multiset(rest) + multiset{c}
    ensures Sorted([head] + tail)
  {
    var cs, all := [head] + rest, [head] + tail;
    forall i, j | 0 <= i < j < |all| ensures !Precedes(all[j], all[i]) {
      if i == 0 {
        var x := all[j];
        assert x == tail[j - 1] && x in multiset(tail);
        if x != c {
          assert x in rest;
          var k :| 0 <= k < |rest| && rest[k] == x;
          assert cs[k + 1] == x && cs[0] == head;
        }
      } else {
        assert all[i] == tail[i - 1] && all[j] == tail[j - 1];
      }
    }
  }

  lemma {:induction false} InsertSorts(c: Credential, cs: seq<Credential>)
    requires Sorted(cs)
    ensures Sorted(Insert(c, cs)) && multiset(Insert(c, cs)) == multiset(cs) + multiset{c}
    decreases |cs|
  {
    if cs != [] {
      var head, rest := cs[0], cs[1..];
      assert cs == [head] + rest;
      if Precedes(c, head) {
        InsertFirst(c, cs);
      } else {
        InsertSorts(c, rest);
        InsertLater(c, head, rest, Insert(c, rest));
      }
    }
  }

  /** `collect_credentials_newest_first`: any bad document fails the whole read, otherwise all are returned sorted. */
  method CollectNewestFirst(cursor: seq<Doc>) returns (result: Result)
    ensures result == Err <==> exists i :: 0 <= i < |cursor| && cursor[i].Bad?
    ensures result.Ok? ==> IsSortOf(result.credentials, Decoded(cursor)) && NewestFirst(result.credentials)
  {
    var credentials: seq<Credential> := [];
    for i := 0 to |cursor|
      invariant forall k :: 0 <= k < i ==> cursor[k].Good?
      invariant credentials == Decoded(cursor[..i])
    {
      if cursor[i].Bad? {
        return Err;
      }
      credentials := credentials + [cursor[i].credential];
      assert cursor[..i + 1][..i] == cursor[..i];
    }
    assert cursor[..|cursor|] == cursor;
    var sorted := SortNewestFirst(credentials);
    SortedIsNewestFirst(sorted);
    result := Ok(sorted);
  }

  function Decoded(cursor: seq<Doc>): seq<Credential> {
    if cursor == [] then []
    else
      var last := cursor[|cursor| - 1];
      Decoded(cursor[..|cursor| - 1]) + if last.Good? then [last.credential] else []
  }

  /** Stands for the library sort with the comparator above. */
  method SortNewestFirst(credentials: seq<Credential>) returns (sorted: seq<Credential>)
    ensures IsSortOf(sorted, credentials)
  {
    sorted := [];
    for i := 0 to |credentials|
      invariant IsSortOf(sorted, credentials[..i])
    {
      InsertSorts(credentials[i], sorted);
      assert credentials[..i + 1] == credentials[..i] + [credentials[i]];
      sorted := Insert(credentials[i], sorted);
    }
    assert credentials[..|credentials|] == credentials;
  }
}
