/** How the store lists things: gene-caller ids sorted numerically (Python's
    `sorted`), the members of an HDF5 group by name (the order h5py iterates a
    group in), the keys of a Python dict in first insertion order, and the
    members of a list that a collection lacks. */
module Collections {

  predicate StrictlyIncreasing(s: seq<int>)
  {
    forall i, j :: 0 <= i < j < |s| ==> s[i] < s[j]
  }

  predicate NoDuplicates<T(==)>(s: seq<T>)
  {
    forall i, j :: 0 <= i < j < |s| ==> s[i] != s[j]
  }

  /** A non-empty sequence is free of repeats when its head does not recur
      and its tail is free of repeats. */
  lemma NoDuplicatesCons<T>(s: seq<T>)
    requires s != []
    ensures NoDuplicates(s) <==> s[0] !in s[1..] && NoDuplicates(s[1..])
  {
    var rest := s[1..];
    if s[0] !in rest && NoDuplicates(rest) {
      forall i, j | 0 <= i < j < |s| ensures s[i] != s[j] {
        assert s[j] == rest[j - 1];
        if i > 0 { assert s[i] == rest[i - 1]; }
      }
    }
    if NoDuplicates(s) {
      forall i, j | 0 <= i < j < |rest| ensures rest[i] != rest[j] {
        assert rest[i] == s[i + 1] && rest[j] == s[j + 1];
      }
    }
  }

  predicate IsLeast(m: int, s: set<int>)
  {
    m in s && forall y :: y in s ==> m <= y
  }

  lemma {:induction false} LeastExists(s: set<int>)
    requires s != {}
    ensures exists m :: IsLeast(m, s)
  {
    if forall y: int :: y !in s {
      assert false;  // s is not the empty set
    }
    var x :| x in s;
    if s - {x} == {} {
      assert s == {x};
      assert IsLeast(x, s);
    } else {
      LeastExists(s - {x});
      var m :| IsLeast(m, s - {x});
      assert forall y :: y in s ==> y == x || y in s - {x};
      if x <= m {
        assert IsLeast(x, s);
      } else {
        assert IsLeast(m, s);
      }
    }
  }

  /** The elements of a set of ids in ascending numeric order. */
  function SortedIds(s: set<int>): (r: seq<int>)
    ensures StrictlyIncreasing(r)
    ensures forall x :: x in r <==> x in s
    ensures |r| == |s|
    decreases |s|
  {
    if s == {} then []
    else
      LeastExists(s);
      var m :| IsLeast(m, s);
      var rest := SortedIds(s - {m});
      assert forall k :: 0 <= k < |rest| ==> m < rest[k] by {
        forall k | 0 <= k < |rest| ensures m < rest[k] {
          assert rest[k] in s - {m};
        }
      }
      [m] + rest
  }

  /** Strict lexicographic order on strings by character code, the order in
      which HDF5 lists the members of a group. */
  predicate Below(a: string, b: string)
    decreases |a|
  {
    |b| > 0 && (|a| == 0 || a[0] < b[0] || (a[0] == b[0] && Below(a[1..], b[1..])))
  }

  lemma {:induction false} BelowIrreflexive(a: string)
    ensures !Below(a, a)
    decreases |a|
  {
    if |a| > 0 { BelowIrreflexive(a[1..]); }
  }

  lemma {:induction false} BelowTransitive(a: string, b: string, c: string)
    requires Below(a, b) && Below(b, c)
    ensures Below(a, c)
    decreases |a|
  {
    if |a| > 0 && a[0] == b[0] && b[0] == c[0] {
      BelowTransitive(a[1..], b[1..], c[1..]);
    }
  }

  lemma {:induction false} BelowTotal(a: string, b: string)
    requires a != b
    ensures Below(a, b) || Below(b, a)
    decreases |a|
  {
    if |a| > 0 && |b| > 0 && a[0] == b[0] {
      assert a == [a[0]] + a[1..] && b == [b[0]] + b[1..];
      BelowTotal(a[1..], b[1..]);
    }
  }

  predicate IsFirst(m: string, s: set<string>)
  {
    m in s && forall x :: x in s && x != m ==> Below(m, x)
  }

  lemma {:induction false} FirstExists(s: set<string>)
    requires s != {}
    ensures exists m :: IsFirst(m, s)
  {
    var x :| x in s;
    if s - {x} == {} {
      assert s == {x};
      assert IsFirst(x, s);
    } else {
      FirstExists(s - {x});
      var m :| IsFirst(m, s - {x});
      BelowTotal(x, m);
      if Below(x, m) {
        forall y | y in s && y != x ensures Below(x, y) {
          if y != m { BelowTransitive(x, m, y); }
        }
        assert IsFirst(x, s);
      } else {
        assert IsFirst(m, s);
      }
    }
  }

  lemma FirstUnique(m: string, m': string, s: set<string>)
    requires IsFirst(m, s) && IsFirst(m', s)
    ensures m == m'
  {
    if m != m' {
      BelowTransitive(m, m', m);
      BelowIrreflexive(m);
    }
  }

  predicate StrictlyAscendingNames(r: seq<string>)
  {
    forall i, j :: 0 <= i < j < |r| ==> Below(r[i], r[j])
  }

  /** The elements of a set of names in the order HDF5 enumerates them
      (SortedNamesAscending states the order). */
  function SortedNames(s: set<string>): (r: seq<string>)
    ensures forall x :: x in r <==> x in s
    ensures |r| == |s|
    decreases |s|
  {
    if s == {} then []
    else
      FirstExists(s);
      assert forall m, m' :: IsFirst(m, s) && IsFirst(m', s) ==> m == m' by {
        forall m, m' | IsFirst(m, s) && IsFirst(m', s) ensures m == m' { FirstUnique(m, m', s); }
      }
      var m :| IsFirst(m, s);
      [m] + SortedNames(s - {m})
  }

  lemma {:induction false} SortedNamesAscending(s: set<string>)
    ensures StrictlyAscendingNames(SortedNames(s))
    decreases |s|
  {
    if s != {} {
      var r := SortedNames(s);
      var m := r[0];
      assert IsFirst(m, s);
      var rest := SortedNames(s - {m});
      assert r == [m] + rest;
      SortedNamesAscending(s - {m});
      forall i, j | 0 <= i < j < |r| ensures Below(r[i], r[j]) {
        if i == 0 {
          assert r[j] == rest[j - 1] && rest[j - 1] in s - {m};
        } else {
          assert r[i] == rest[i - 1] && r[j] == rest[j - 1];
        }
      }
    }
  }

  /** The keys of a dict filled from `s` in order: each name once, at the
      place it first occurs. */
  function Dedup(s: seq<string>): (r: seq<string>)
    ensures NoDuplicates(r)
    ensures forall x :: x in r <==> x in s
    ensures |r| <= |s|
  {
    if s == [] then []
    else
      var d := Dedup(s[..|s| - 1]);
      assert forall x :: x in s <==> x in s[..|s| - 1] || x == s[|s| - 1] by {
        assert s == s[..|s| - 1] + [s[|s| - 1]];
      }
      if s[|s| - 1] in d then d else d + [s[|s| - 1]]
  }

  /** A list without repeated names is its own dict-key order. */
  lemma {:induction false} DedupOfDistinct(s: seq<string>)
    requires NoDuplicates(s)
    ensures Dedup(s) == s
  {
    if s != [] {
      var init := s[..|s| - 1];
      assert NoDuplicates(init);
      DedupOfDistinct(init);
      assert s[|s| - 1] !in init;
      assert s == init + [s[|s| - 1]];
    }
  }

  /** The members of `req` absent from `known`, in the order of `req`
      (a list comprehension with a membership test). */
  function Missing(req: seq<string>, known: set<string>): (r: seq<string>)
    ensures forall x :: x in r <==> x in req && x !in known
    ensures |r| <= |req|
    ensures NoDuplicates(req) ==> NoDuplicates(r)
  {
    if req == [] then []
    else
      var rest := Missing(req[1..], known);
      assert forall x :: x in req <==> x == req[0] || x in req[1..];
      NoDuplicatesCons(req);
      if req[0] in known then rest
      else
        NoDuplicatesCons([req[0]] + rest);
        assert ([req[0]] + rest)[1..] == rest;
        [req[0]] + rest
  }
}
