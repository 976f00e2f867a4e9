/** The list operations the service and the screen apply to a list of
    classrooms: JavaScript's `filter`, `findIndex` and `map` written as
    recursive functions, with what each one means. */
module ClassroomSeqs {
  import opened ClassroomTypes

  /** `r` is `s` with some elements deleted and the rest kept in order. */
  predicate IsSubsequence<T(==)>(r: seq<T>, s: seq<T>)
    decreases |s|
  {
    r == [] || (s != [] && ((r[0] == s[0] && IsSubsequence(r[1..], s[1..])) || IsSubsequence(r, s[1..])))
  }

  lemma {:induction false} SubsequenceMembers<T>(r: seq<T>, s: seq<T>)
    requires IsSubsequence(r, s)
    ensures forall x :: x in r ==> x in s
    decreases |s|
  {
    if r != [] {
      if r[0] == s[0] && IsSubsequence(r[1..], s[1..]) {
        SubsequenceMembers(r[1..], s[1..]);
        assert forall x :: x in r ==> x == r[0] || x in r[1..];
      } else {
        SubsequenceMembers(r, s[1..]);
      }
    }
  }

  /** No two elements of `s` share a key. */
  predicate UniqueBy<T, K(==)>(s: seq<T>, key: T -> K) {
    forall i, j :: 0 <= i < j < |s| ==> key(s[i]) != key(s[j])
  }

  /** Deleting elements cannot make two keys equal. */
  lemma {:induction false} SubsequenceKeepsUnique<T, K>(r: seq<T>, s: seq<T>, key: T -> K)
    requires IsSubsequence(r, s) && UniqueBy(s, key)
    ensures UniqueBy(r, key)
    decreases |s|
  {
    if r != [] {
      assert UniqueBy(s[1..], key) by {
        forall i, j | 0 <= i < j < |s[1..]| ensures key(s[1..][i]) != key(s[1..][j]) {
          assert s[1..][i] == s[i + 1] && s[1..][j] == s[j + 1];
        }
      }
      if r[0] == s[0] && IsSubsequence(r[1..], s[1..]) {
        SubsequenceKeepsUnique(r[1..], s[1..], key);
        SubsequenceMembers(r[1..], s[1..]);
        forall j | 0 < j < |r| ensures key(r[0]) != key(r[j]) {
          assert r[j] == r[1..][j - 1] && r[j] in r[1..];
          var k :| 0 <= k < |s[1..]| && s[1..][k] == r[j];
          assert s[k + 1] == r[j];
        }
        forall i, j | 0 <= i < j < |r| ensures key(r[i]) != key(r[j]) {
          if i > 0 {
            assert r[i] == r[1..][i - 1] && r[j] == r[1..][j - 1];
          }
        }
      } else {
        SubsequenceKeepsUnique(r, s[1..], key);
      }
    }
  }

  /** JavaScript's `filter`: the elements `keep` accepts, in their order. */
  function Filter<T(==,!new)>(s: seq<T>, keep: T -> bool): (r: seq<T>)
    ensures |r| <= |s|
    ensures forall x :: x in r <==> x in s && keep(x)
    ensures forall x :: multiset(r)[x] == if keep(x) then multiset(s)[x] else 0
    ensures IsSubsequence(r, s)
  {
    if s == [] then []
    else
      assert s == [s[0]] + s[1..];
      if keep(s[0]) then
        var rest := Filter(s[1..], keep);
        assert ([s[0]] + rest)[1..] == rest;
        [s[0]] + rest
      else Filter(s[1..], keep)
  }

  /** Filtering is done element by element: it distributes over `+`. */
  lemma {:induction false} FilterConcat<T(!new)>(a: seq<T>, b: seq<T>, keep: T -> bool)
    ensures Filter(a + b, keep) == Filter(a, keep) + Filter(b, keep)
  {
    if a == [] {
      assert a + b == b;
    } else {
      assert (a + b)[0] == a[0] && (a + b)[1..] == a[1..] + b;
      FilterConcat(a[1..], b, keep);
    }
  }

  /** A filter that accepts every element returns the list unchanged. */
  lemma {:induction false} FilterKeepsAll<T(!new)>(s: seq<T>, keep: T -> bool)
    requires forall i :: 0 <= i < |s| ==> keep(s[i])
    ensures Filter(s, keep) == s
  {
    if s != [] {
      FilterKeepsAll(s[1..], keep);
      assert [s[0]] + s[1..] == s;
    }
  }

  function IdOf(c: Classroom): string { c.id }

  function NameOf(c: Classroom): string { c.name }

  /** Every record has its own id. */
  predicate IdsUnique(s: seq<Classroom>) { UniqueBy(s, IdOf) }

  /** Every record has its own name. */
  predicate NamesUnique(s: seq<Classroom>) { UniqueBy(s, NameOf) }

  predicate HasId(s: seq<Classroom>, id: string) {
    exists i :: 0 <= i < |s| && s[i].id == id
  }

  /** JavaScript's `findIndex(c => c.id === id)`: the first position holding
      `id`, or -1 when there is none. */
  function FindIndex(s: seq<Classroom>, id: string): (r: int)
    ensures -1 <= r < |s|
    ensures r == -1 <==> !HasId(s, id)
    ensures r >= 0 ==> s[r].id == id && forall i :: 0 <= i < r ==> s[i].id != id
  {
    if s == [] then -1
    else if s[0].id == id then 0
    else
      var k := FindIndex(s[1..], id);
      assert forall i :: 0 < i < |s| ==> s[i] == s[1..][i - 1];
      if k == -1 then -1 else k + 1
  }

  /** `filter(c => c.id !== id)`: every record with that id goes. */
  function RemoveById(s: seq<Classroom>, id: string): (r: seq<Classroom>)
    ensures IsSubsequence(r, s)
    ensures forall c :: c in r <==> c in s && c.id != id
    ensures forall c :: multiset(r)[c] == if c.id != id then multiset(s)[c] else 0
    ensures !HasId(s, id) ==> r == s
  {
    var keep := (c: Classroom) => c.id != id;
    var r := Filter(s, keep);
    assert !HasId(s, id) ==> r == s by {
      if !HasId(s, id) { FilterKeepsAll(s, keep); }
    }
    r
  }

  /** `map(c => c.id === id ? x : c)`: every record with that id is replaced,
      the length and every other position stay. */
  function ReplaceById(s: seq<Classroom>, id: string, x: Classroom): (r: seq<Classroom>)
    ensures |r| == |s|
    ensures forall i :: 0 <= i < |s| ==> r[i] == if s[i].id == id then x else s[i]
  {
    if s == [] then []
    else
      var rest := ReplaceById(s[1..], id, x);
      var r := [if s[0].id == id then x else s[0]] + rest;
      assert forall i :: 0 < i < |s| ==> r[i] == rest[i - 1] && s[i] == s[1..][i - 1];
      r
  }

  /** With unique ids, replacing the first record that has `id` is the same
      as replacing every record that has it. */
  lemma ReplaceFirstIsReplaceAll(s: seq<Classroom>, id: string, x: Classroom)
    requires IdsUnique(s) && HasId(s, id)
    ensures s[FindIndex(s, id) := x] == ReplaceById(s, id, x)
  {
    var k := FindIndex(s, id);
    forall i | 0 <= i < |s| ensures s[k := x][i] == ReplaceById(s, id, x)[i] {
      if i != k {
        assert IdOf(s[i]) != IdOf(s[k]);
      }
    }
  }

  /** With two records sharing an id, the two replacements differ. */
  lemma ReplaceFirstDiffersOnDuplicateIds(a: Classroom, b: Classroom, x: Classroom)
    requires a.id == b.id && b != x
    ensures [a, b][FindIndex([a, b], a.id) := x] != ReplaceById([a, b], a.id, x)
  {
    assert [a, b][FindIndex([a, b], a.id) := x][1] == b;
  }
}
