/** Plugin and file names, in the order Python's `sorted` gives them. */
module Names {

  datatype Name = Name(text: string)

  /** Code-point lexicographic order: Python's `<=` on strings. */
  predicate TextLeq(a: string, b: string) {
    a == [] || (b != [] && (a[0] < b[0] || (a[0] == b[0] && TextLeq(a[1..], b[1..]))))
  }

  /** A text is below another when it is a prefix, or smaller at the first difference. */
  lemma {:induction false} TextLeqExact(a: string, b: string)
    ensures TextLeq(a, b) <==> a <= b || exists k :: SmallerAt(a, b, k)
  {
    if a != [] && b != [] && a[0] == b[0] {
      TextLeqExact(a[1..], b[1..]);
      assert a == [a[0]] + a[1..] && b == [b[0]] + b[1..];
      assert a <= b <==> a[1..] <= b[1..];
      forall k: nat | SmallerAt(a[1..], b[1..], k) ensures SmallerAt(a, b, k + 1) {
        assert a[..k + 1] == [a[0]] + a[1..][..k] && b[..k + 1] == [b[0]] + b[1..][..k];
      }
      forall k: nat | SmallerAt(a, b, k) ensures k > 0 && SmallerAt(a[1..], b[1..], k - 1) {
        assert a[1..][..k - 1] == a[..k][1..] && b[1..][..k - 1] == b[..k][1..];
      }
    } else if a != [] && b != [] {
      assert a[0] < b[0] ==> SmallerAt(a, b, 0);
      forall k: nat | SmallerAt(a, b, k) ensures k == 0 {
        SameFront(a, b, k);
      }
    }
  }

  lemma SameFront(a: string, b: string, k: nat)
    requires SmallerAt(a, b, k)
    ensures k > 0 ==> a[0] == b[0]
  {
    if k > 0 {
      assert a[..k][0] == b[..k][0];
    }
  }

  ghost predicate SmallerAt(a: string, b: string, k: nat) {
    k < |a| && k < |b| && a[..k] == b[..k] && a[k] < b[k]
  }

  lemma {:induction false} TextLeqTotal(a: string, b: string)
    ensures TextLeq(a, b) || TextLeq(b, a)
  {
    if a != [] && b != [] && a[0] == b[0] {
      TextLeqTotal(a[1..], b[1..]);
    }
  }

  lemma {:induction false} TextLeqAntisymmetric(a: string, b: string)
    requires TextLeq(a, b) && TextLeq(b, a)
    ensures a == b
  {
    if a != [] && b != [] {
      TextLeqAntisymmetric(a[1..], b[1..]);
      assert a == [a[0]] + a[1..] && b == [b[0]] + b[1..];
    }
  }

  lemma {:induction false} TextLeqTransitive(a: string, b: string, c: string)
    requires TextLeq(a, b) && TextLeq(b, c)
    ensures TextLeq(a, c)
  {
    if a != [] && a[0] == b[0] == c[0] {
      TextLeqTransitive(a[1..], b[1..], c[1..]);
    }
  }

  predicate Leq(a: Name, b: Name) {
    TextLeq(a.text, b.text)
  }

  predicate Less(a: Name, b: Name) {
    a != b && Leq(a, b)
  }

  lemma LessTransitive(a: Name, b: Name, c: Name)
    requires Less(a, b) && Less(b, c)
    ensures Less(a, c)
  {
    TextLeqTransitive(a.text, b.text, c.text);
    if a == c {
      TextLeqAntisymmetric(a.text, b.text);
    }
  }

  /** Strictly ascending: sorted with no repetition. */
  ghost predicate Ascending(s: seq<Name>) {
    forall i, j :: 0 <= i < j < |s| ==> Less(s[i], s[j])
  }

  function Elements<T>(s: seq<T>): set<T> {
    set x | x in s
  }

  lemma ElementsEmpty<T>(s: seq<T>)
    ensures s == [] <==> Elements(s) == {}
  {
    if s != [] {
      assert s[0] in Elements(s);
    }
  }

  lemma ElementsConcat<T>(s: seq<T>, t: seq<T>)
    ensures Elements(s + t) == Elements(s) + Elements(t)
  {
  }

  lemma ElementsAppend<T>(s: seq<T>, x: T)
    ensures Elements(s + [x]) == Elements(s) + {x}
  {
  }

  ghost predicate Distinct<T>(s: seq<T>) {
    forall i, j :: 0 <= i < j < |s| ==> s[i] != s[j]
  }

  /** Insert into an ascending sequence; a name already there stays single. */
  function Insert(x: Name, s: seq<Name>): (r: seq<Name>) {
    if s == [] then [x]
    else if x == s[0] then s
    else if Leq(x, s[0]) then [x] + s
    else [s[0]] + Insert(x, s[1..])
  }

  lemma {:induction false} InsertElements(x: Name, s: seq<Name>)
    ensures Elements(Insert(x, s)) == Elements(s) + {x}
  {
    hide Leq;
    if s != [] && x != s[0] {
      InsertElements(x, s[1..]);
      assert s == [s[0]] + s[1..];
      ElementsConcat([s[0]], Insert(x, s[1..]));
      ElementsConcat([s[0]], s[1..]);
      ElementsConcat([x], s);
    }
  }

  lemma {:induction false} InsertAscending(x: Name, s: seq<Name>)
    requires Ascending(s)
    ensures Elements(Insert(x, s)) == Elements(s) + {x}
    ensures Ascending(Insert(x, s))
  {
    InsertElements(x, s);
    if s != [] && x != s[0] {
      if Leq(x, s[0]) {
        forall j | 0 <= j < |s| ensures Less(x, s[j]) {
          if j > 0 {
            LessTransitive(x, s[0], s[j]);
          }
        }
        AscendingCons(x, s);
      } else {
        TextLeqTotal(x.text, s[0].text);
        InsertAscending(x, s[1..]);
        InsertAbove(x, s);
        AscendingCons(s[0], Insert(x, s[1..]));
      }
    }
  }

  lemma InsertAbove(x: Name, s: seq<Name>)
    requires Ascending(s) && s != [] && Less(s[0], x)
    ensures forall j :: 0 <= j < |Insert(x, s[1..])| ==> Less(s[0], Insert(x, s[1..])[j])
  {
    var r := Insert(x, s[1..]);
    InsertElements(x, s[1..]);
    hide Less, Insert;
    forall j | 0 <= j < |r| ensures Less(s[0], r[j]) {
      assert r[j] in Elements(s[1..]) + {x};
      if r[j] in s[1..] {
        var k :| 0 <= k < |s[1..]| && s[1..][k] == r[j];
        assert s[k + 1] == r[j];
      }
    }
  }

  lemma AscendingCons(x: Name, s: seq<Name>)
    requires Ascending(s) && forall j :: 0 <= j < |s| ==> Less(x, s[j])
    ensures Ascending([x] + s)
  {
    hide Less;
  }

  /** Python's `sorted` on a sequence without repetitions. */
  function Sorted(s: seq<Name>): (r: seq<Name>) {
    if s == [] then [] else Insert(s[0], Sorted(s[1..]))
  }

  lemma {:induction false} SortedAscending(s: seq<Name>)
    ensures Ascending(Sorted(s))
    ensures Elements(Sorted(s)) == Elements(s)
  {
    if s != [] {
      SortedAscending(s[1..]);
      InsertAscending(s[0], Sorted(s[1..]));
      assert s == [s[0]] + s[1..];
    }
  }

  /** An ascending sequence is determined by its elements. */
  lemma {:induction false} AscendingUnique(s: seq<Name>, t: seq<Name>)
    requires Ascending(s) && Ascending(t)
    requires Elements(s) == Elements(t)
    ensures s == t
  {
    ElementsEmpty(s);
    ElementsEmpty(t);
    if s != [] {
      assert s[0] in Elements(t);
      var k :| 0 <= k < |t| && t[k] == s[0];
      assert t[0] in Elements(s);
      var m :| 0 <= m < |s| && s[m] == t[0];
      if k > 0 && m > 0 {
        TextLeqAntisymmetric(s[0].text, t[0].text);
      }
      assert s[0] == t[0];
      forall x ensures x in Elements(s[1..]) <==> x in Elements(t[1..]) {
        TailElements(s, x);
        TailElements(t, x);
      }
      AscendingUnique(s[1..], t[1..]);
      assert s == [s[0]] + s[1..] && t == [t[0]] + t[1..];
    }
  }

  lemma TailElements(s: seq<Name>, x: Name)
    requires Ascending(s) && s != []
    ensures x in Elements(s[1..]) <==> x in Elements(s) && x != s[0]
  {
    assert s == [s[0]] + s[1..];
    if x in s[1..] {
      var i :| 0 <= i < |s[1..]| && s[1..][i] == x;
      assert Less(s[0], s[i + 1]);
    }
  }
}
