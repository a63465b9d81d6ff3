/** File names in the order of a std::set<std::string>. */
module Names {
  /** Lexicographic order by character code. */
  predicate Less(a: string, b: string) {
    b != "" && (a == "" || a[0] < b[0] || (a[0] == b[0] && Less(a[1..], b[1..])))
  }

  lemma {:induction false} LessTransitive(a: string, b: string, c: string)
    requires Less(a, b) && Less(b, c)
    ensures Less(a, c)
  {
    if a != "" && a[0] == b[0] == c[0] {
      LessTransitive(a[1..], b[1..], c[1..]);
    }
  }

  lemma {:induction false} LessIrreflexive(a: string)
    ensures !Less(a, a)
  {
    if a != "" {
      LessIrreflexive(a[1..]);
    }
  }

  lemma {:induction false} LessTotal(a: string, b: string)
    ensures Less(a, b) || a == b || Less(b, a)
  {
    if a != "" && b != "" && a[0] == b[0] {
      LessTotal(a[1..], b[1..]);
      assert a == [a[0]] + a[1..] && b == [b[0]] + b[1..];
    }
  }

  ghost predicate Ascending(s: seq<string>) {
    forall i, j :: 0 <= i < j < |s| ==> Less(s[i], s[j])
  }

  /** std::set::insert. */
  function InsertName(s: seq<string>, n: string): seq<string> {
    if s == [] || Less(s[|s| - 1], n) then s + [n]
    else if s[|s| - 1] == n then s
    else InsertName(s[..|s| - 1], n) + [s[|s| - 1]]
  }

  lemma {:induction false} InsertNameKeeps(s: seq<string>, n: string)
    requires Ascending(s)
    ensures Ascending(InsertName(s, n))
    ensures forall x :: x in InsertName(s, n) <==> x in s || x == n
  {
    if s == [] {
    } else if Less(s[|s| - 1], n) {
      forall i | 0 <= i < |s| - 1 ensures Less(s[i], n) {
        LessTransitive(s[i], s[|s| - 1], n);
      }
    } else if s[|s| - 1] != n {
      var front, last := s[..|s| - 1], s[|s| - 1];
      InsertNameKeeps(front, n);
      LessTotal(n, last);
      assert s == front + [last];
      var r := InsertName(front, n);
      forall i | 0 <= i < |r| ensures Less(r[i], last) {
        assert r[i] in r;
        if r[i] in front {
          var j :| 0 <= j < |front| && front[j] == r[i];
          assert Less(s[j], s[|s| - 1]);
        }
      }
    }
  }

  lemma AscendingLast(s: seq<string>, x: string)
    requires Ascending(s) && s != [] && x in s
    ensures x == s[|s| - 1] || Less(x, s[|s| - 1])
  {
    var i :| 0 <= i < |s| && s[i] == x;
  }

  lemma AscendingFront(s: seq<string>, x: string)
    requires Ascending(s) && s != []
    ensures x in s[..|s| - 1] <==> x in s && x != s[|s| - 1]
  {
    LessIrreflexive(s[|s| - 1]);
    assert s == s[..|s| - 1] + [s[|s| - 1]];
  }

  /** A set of names has one ascending listing only. */
  lemma {:induction false} AscendingUnique(s: seq<string>, t: seq<string>)
    requires Ascending(s) && Ascending(t) && forall x :: x in s <==> x in t
    ensures s == t
    decreases |s|
  {
    assert s != [] ==> s[0] in s;
    assert t != [] ==> t[0] in t;
    if s != [] {
      assert s[|s| - 1] in s;
      var x, y := s[|s| - 1], t[|t| - 1];
      var front, front' := s[..|s| - 1], t[..|t| - 1];
      assert y in t;
      AscendingLast(s, y);
      AscendingLast(t, x);
      if x != y {
        LessTransitive(x, y, x);
        LessIrreflexive(x);
      }
      forall n: string ensures n in front <==> n in front' {
        AscendingFront(s, n);
        AscendingFront(t, n);
      }
      AscendingUnique(front, front');
      assert s == front + [x] && t == front' + [y];
    }
  }
}
