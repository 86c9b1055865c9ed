/** The reference meaning of an import: which keys a list of input lines contributes, and in which order. */
module FirstOccurrences {
  import opened Strings

  /** The trimmed, non-empty lines. */
  function Keys(lines: seq<string>): seq<string> {
    if lines == [] then []
    else
      var rest, key := Keys(lines[..|lines| - 1]), Trim(lines[|lines| - 1]);
      if key == "" then rest else rest + [key]
  }

  lemma {:induction false} KeysOfConcat(a: seq<string>, b: seq<string>)
    ensures Keys(a + b) == Keys(a) + Keys(b)
    decreases |b|
  {
    if b == [] {
      assert a + b == a;
    } else {
      assert (a + b)[..|a + b| - 1] == a + b[..|b| - 1];
      KeysOfConcat(a, b[..|b| - 1]);
    }
  }

  lemma {:induction false} KeysAreTrimmed(lines: seq<string>)
    ensures |Keys(lines)| <= |lines|
    ensures forall k <- Keys(lines) :: k != "" && Trim(k) == k
  {
    if lines != [] {
      KeysAreTrimmed(lines[..|lines| - 1]);
      TrimIsIdempotent(lines[|lines| - 1]);
    }
  }

  function Elements<T>(xs: seq<T>): set<T> {
    set x <- xs
  }

  lemma ElementsOfConcat<T>(a: seq<T>, b: seq<T>)
    ensures Elements(a + b) == Elements(a) + Elements(b)
  {
    assert forall x :: x in a + b <==> x in a || x in b;
  }

  /** The elements that are not known beforehand and do not occur earlier, in input order. */
  function Firsts(xs: seq<string>, known: set<string>): seq<string> {
    if xs == [] then []
    else
      var rest, last := xs[..|xs| - 1], xs[|xs| - 1];
      if last in known || last in rest then Firsts(rest, known) else Firsts(rest, known) + [last]
  }

  lemma {:induction false} FirstsElements(xs: seq<string>, known: set<string>)
    ensures Elements(Firsts(xs, known)) == Elements(xs) - known
    ensures |Firsts(xs, known)| <= |xs|
  {
    if xs != [] {
      var rest, last := xs[..|xs| - 1], xs[|xs| - 1];
      FirstsElements(rest, known);
      ElementsOfConcat(rest, [last]);
      assert xs == rest + [last];
      ElementsOfConcat(Firsts(rest, known), if last in known || last in rest then [] else [last]);
    }
  }

  ghost predicate Distinct<T>(xs: seq<T>) {
    forall i, j :: 0 <= i < j < |xs| ==> xs[i] != xs[j]
  }

  lemma DistinctSnoc<T>(xs: seq<T>, x: T)
    requires Distinct(xs) && x !in xs
    ensures Distinct(xs + [x])
  {
  }

  lemma {:induction false} FirstsAreDistinct(xs: seq<string>, known: set<string>)
    ensures Distinct(Firsts(xs, known))
  {
    if xs != [] {
      FirstsAreDistinct(xs[..|xs| - 1], known);
      FirstsElements(xs[..|xs| - 1], known);
      var prefix, last := Firsts(xs[..|xs| - 1], known), xs[|xs| - 1];
      if last !in known && last !in xs[..|xs| - 1] {
        assert last !in Elements(prefix);
        DistinctSnoc(prefix, last);
      } else {
        assert Firsts(xs, known) == prefix;
      }
    }
  }

  /** Reading on after a prefix is the same as starting afresh with the prefix known. */
  lemma {:induction false} FirstsOfConcat(a: seq<string>, b: seq<string>, known: set<string>)
    ensures Firsts(a + b, known) == Firsts(a, known) + Firsts(b, known + Elements(a))
    decreases |b|
  {
    if b == [] {
      assert a + b == a;
    } else {
      assert (a + b)[..|a + b| - 1] == a + b[..|b| - 1];
      FirstsOfConcat(a, b[..|b| - 1], known);
    }
  }

  /** A distinct sequence has as many entries as elements. */
  lemma {:induction false} DistinctCount<T>(xs: seq<T>)
    requires Distinct(xs)
    ensures |Elements(xs)| == |xs|
  {
    if xs != [] {
      var rest, last := xs[..|xs| - 1], xs[|xs| - 1];
      DistinctCount(rest);
      assert Elements(xs) == Elements(rest) + {last};
    }
  }

  lemma DistinctConcat<T>(a: seq<T>, b: seq<T>)
    requires Distinct(a) && Distinct(b) && forall x <- b :: x !in a
    ensures Distinct(a + b)
  {
    forall i, j | 0 <= i < j < |a + b|
      ensures (a + b)[i] != (a + b)[j]
    {
      if i < |a| <= j {
        assert b[j - |a|] in b && a[i] in a;
      }
    }
  }
}
