/**
 * The visitor records and the view that `renderLogs` builds from them:
 * newest first by id, then narrowed by a search term.
 */
module VisitorView {

  datatype Status = In | Out

  /** One visit, as stored both remotely and in the local log. */
  datatype Visitor = Visitor(
    id: int,
    name: string,
    phone: string,
    email: string,
    purpose: string,
    host: string,
    notes: string,
    entryTime: string,
    exitTime: string,
    status: Status,
    loggedBy: string,
    createdAt: string)

  // ---------------------------------------------------------------------
  // Ordering: `logs.sort((a, b) => b.id - a.id)`

  /** Every record comes before all records with a larger id. */
  ghost predicate NewestFirst(s: seq<Visitor>)
  {
    forall i, j :: 0 <= i < j < |s| ==> s[i].id >= s[j].id
  }

  /** Places `v` into a newest-first sequence, ahead of records with an equal id. */
  function Insert(v: Visitor, s: seq<Visitor>): (r: seq<Visitor>)
    requires NewestFirst(s)
    ensures NewestFirst(r)
    ensures multiset(r) == multiset(s) + multiset{v}
  {
    if s == [] || v.id >= s[0].id then
      [v] + s
    else
      var rest := Insert(v, s[1..]);
      assert s == [s[0]] + s[1..];
      forall k | 0 <= k < |rest| ensures s[0].id >= rest[k].id {
        assert rest[k] in multiset(rest);
        assert rest[k] == v || rest[k] in multiset(s[1..]);
      }
      [s[0]] + rest
  }

  /** The sort of `renderLogs`: newest first, and a permutation of its input. */
  function SortNewestFirst(s: seq<Visitor>): (r: seq<Visitor>)
    ensures NewestFirst(r)
    ensures multiset(r) == multiset(s)
    ensures |r| == |s|
  {
    if s == [] then []
    else
      assert s == [s[0]] + s[1..];
      Insert(s[0], SortNewestFirst(s[1..]))
  }

  // ---------------------------------------------------------------------
  // Search: `name`, `host` and `purpose` case-insensitively, `phone` verbatim

  /** `toLowerCase` on one character, for the ASCII letters. */
  function LowerChar(c: char): char
  {
    if 'A' <= c <= 'Z' then (c as int + 32) as char else c
  }

  function Lower(s: string): (r: string)
    ensures |r| == |s|
    ensures forall i :: 0 <= i < |s| ==> r[i] == LowerChar(s[i])
  {
    if s == [] then [] else [LowerChar(s[0])] + Lower(s[1..])
  }

  /** `s.includes(t)`: `t` occurs in `s` at some position. */
  predicate Contains(s: string, t: string)
    ensures t == [] ==> Contains(s, t)
    ensures Contains(s, t) ==> |t| <= |s|
    decreases |s|
  {
    t <= s || (s != [] && Contains(s[1..], t))
  }

  /** `t` sits in `s` starting at offset `i`. */
  ghost predicate OccursAt(s: string, t: string, i: int)
  {
    0 <= i && i + |t| <= |s| && s[i..i + |t|] == t
  }

  /** `Contains` holds exactly when `t` sits at some offset of `s`. */
  lemma {:induction false} ContainsAt(s: string, t: string)
    ensures Contains(s, t) <==> exists i :: OccursAt(s, t, i)
    decreases |s|
  {
    if t <= s {
      assert OccursAt(s, t, 0);
    } else if s != [] {
      ContainsAt(s[1..], t);
      if Contains(s[1..], t) {
        var i :| OccursAt(s[1..], t, i);
        assert s[1..][i..i + |t|] == s[i + 1..i + 1 + |t|];
        assert OccursAt(s, t, i + 1);
      }
      if exists i :: OccursAt(s, t, i) {
        var i :| OccursAt(s, t, i);
        assert i != 0;
        assert s[1..][i - 1..i - 1 + |t|] == s[i..i + |t|];
        assert OccursAt(s[1..], t, i - 1);
      }
    }
  }

  /**
   * The search predicate of `renderLogs` for one record. Every record matches
   * the empty term, and none matches a term longer than all four fields.
   */
  predicate Matches(v: Visitor, term: string)
    ensures term == "" ==> Matches(v, term)
    ensures Matches(v, term) ==>
      |term| <= |v.name| || |term| <= |v.phone| || |term| <= |v.host| || |term| <= |v.purpose|
  {
    var t := Lower(term);
    Contains(Lower(v.name), t) || Contains(v.phone, term)
    || Contains(Lower(v.host), t) || Contains(Lower(v.purpose), t)
  }

  /** `a` is `b` with some elements left out, the rest in their order. */
  ghost predicate IsSubsequence(a: seq<Visitor>, b: seq<Visitor>)
    decreases |b|
  {
    a == [] || (b != [] && ((a[0] == b[0] && IsSubsequence(a[1..], b[1..])) || IsSubsequence(a, b[1..])))
  }

  /** `logs.filter(...)` with the search predicate. */
  function Filter(logs: seq<Visitor>, term: string): (r: seq<Visitor>)
    ensures IsSubsequence(r, logs)
    ensures forall v :: multiset(r)[v] == if Matches(v, term) then multiset(logs)[v] else 0
  {
    if logs == [] then []
    else
      var rest := Filter(logs[1..], term);
      assert logs == [logs[0]] + logs[1..];
      if Matches(logs[0], term) then [logs[0]] + rest else rest
  }

  /** `searchTerm ? logs.filter(...) : logs`. */
  function Search(logs: seq<Visitor>, term: string): (r: seq<Visitor>)
    ensures term == "" ==> r == logs
    ensures IsSubsequence(r, logs)
    ensures forall v :: multiset(r)[v] == if term == "" || Matches(v, term) then multiset(logs)[v] else 0
  {
    if term == "" then
      SubsequenceReflexive(logs);
      logs
    else Filter(logs, term)
  }

  lemma {:induction false} SubsequenceReflexive(s: seq<Visitor>)
    ensures IsSubsequence(s, s)
  {
    if s != [] {
      SubsequenceReflexive(s[1..]);
    }
  }

  /** Every element of a subsequence is an element of the whole. */
  lemma {:induction false} SubsequenceMembers(a: seq<Visitor>, b: seq<Visitor>)
    requires IsSubsequence(a, b)
    ensures forall x :: x in a ==> x in b
    decreases |b|
  {
    if a != [] {
      if a[0] == b[0] && IsSubsequence(a[1..], b[1..]) {
        SubsequenceMembers(a[1..], b[1..]);
        assert forall x :: x in a ==> x == a[0] || x in a[1..];
      } else {
        SubsequenceMembers(a, b[1..]);
      }
    }
  }

  /** Leaving records out of a newest-first sequence keeps it newest first. */
  lemma {:induction false} SubsequenceNewestFirst(a: seq<Visitor>, b: seq<Visitor>)
    requires IsSubsequence(a, b) && NewestFirst(b)
    ensures NewestFirst(a)
    decreases |b|
  {
    if a != [] {
      assert forall k :: 1 <= k < |b| ==> b[0].id >= b[k].id;
      if a[0] == b[0] && IsSubsequence(a[1..], b[1..]) {
        SubsequenceNewestFirst(a[1..], b[1..]);
        SubsequenceMembers(a[1..], b[1..]);
        forall i, j | 0 <= i < j < |a| ensures a[i].id >= a[j].id {
          if i == 0 {
            assert a[j] in a[1..];
          } else {
            assert a[i] == a[1..][i - 1] && a[j] == a[1..][j - 1];
          }
        }
      } else {
        SubsequenceNewestFirst(a, b[1..]);
      }
    }
  }

  /**
   * What `renderLogs` shows for the loaded records: newest first, and exactly
   * the records that match the term (all of them for an empty term), each as
   * often as it was loaded. An empty result is the "No visitors found" row.
   */
  function View(logs: seq<Visitor>, term: string): (r: seq<Visitor>)
    ensures NewestFirst(r)
    ensures forall v :: multiset(r)[v] == if term == "" || Matches(v, term) then multiset(logs)[v] else 0
    ensures term == "" ==> |r| == |logs|
  {
    var sorted := SortNewestFirst(logs);
    var r := Search(sorted, term);
    SubsequenceNewestFirst(r, sorted);
    r
  }
}
