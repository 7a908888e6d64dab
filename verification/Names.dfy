/** Table names in the order JavaScript's argument-less `sort` gives them. */
module Names {

  /** Lexicographic order by code unit, with a proper prefix first. */
  predicate Before(a: string, b: string) {
    b != [] && (a == [] || a[0] < b[0] || (a[0] == b[0] && Before(a[1..], b[1..])))
  }

  lemma {:induction false} BeforeTrichotomy(a: string, b: string)
    ensures Before(a, b) || Before(b, a) || a == b
    ensures !(Before(a, b) && Before(b, a))
    ensures !Before(a, a)
  {
    if a != [] {
      if a[1..] != [] { BeforeTrichotomy(a[1..], a[1..]); }
      if b != [] && a[0] == b[0] {
        BeforeTrichotomy(a[1..], b[1..]);
        assert a == [a[0]] + a[1..] && b == [b[0]] + b[1..];
      }
    }
  }

  lemma {:induction false} BeforeTransitive(a: string, b: string, c: string)
    requires Before(a, b) && Before(b, c)
    ensures Before(a, c)
  {
    if a != [] && a[0] == b[0] == c[0] {
      BeforeTransitive(a[1..], b[1..], c[1..]);
    }
  }

  predicate Ascending(names: seq<string>) {
    forall i, j :: 0 <= i < j < |names| ==> Before(names[i], names[j])
  }

  function InsertName(name: string, names: seq<string>): seq<string> {
    if names == [] || Before(name, names[0]) then [name] + names
    else [names[0]] + InsertName(name, names[1..])
  }

  function SortNames(names: seq<string>): seq<string> {
    if names == [] then [] else InsertName(names[0], SortNames(names[1..]))
  }

  predicate NoDuplicates(names: seq<string>) {
    forall i, j :: 0 <= i < j < |names| ==> names[i] != names[j]
  }

  function NameSet(names: seq<string>): set<string> {
    set n | n in names
  }

  lemma {:induction false} InsertKeepsAscending(name: string, names: seq<string>)
    requires Ascending(names) && name !in names
    ensures Ascending(InsertName(name, names))
    ensures NameSet(InsertName(name, names)) == NameSet(names) + {name}
  {
    if names == [] {
    } else if Before(name, names[0]) {
      forall j | 0 <= j < |names| ensures Before(name, names[j]) {
        if j > 0 { BeforeTransitive(name, names[0], names[j]); }
      }
    } else {
      var rest := InsertName(name, names[1..]);
      BeforeTrichotomy(name, names[0]);
      InsertKeepsAscending(name, names[1..]);
      assert NameSet(rest) == NameSet(names[1..]) + {name};
      assert names == [names[0]] + names[1..];
      forall j | 0 <= j < |rest| ensures Before(names[0], rest[j]) {
        assert rest[j] in NameSet(rest);
      }
    }
  }

  /** Sorting distinct names yields exactly those names, each before the next. */
  lemma {:induction false} SortNamesSorts(names: seq<string>)
    requires NoDuplicates(names)
    ensures Ascending(SortNames(names))
    ensures NameSet(SortNames(names)) == NameSet(names)
  {
    if names != [] {
      SortNamesSorts(names[1..]);
      assert names[0] !in SortNames(names[1..]) by {
        assert names[0] !in names[1..];
        assert names[0] !in NameSet(SortNames(names[1..]));
      }
      InsertKeepsAscending(names[0], SortNames(names[1..]));
      assert names == [names[0]] + names[1..];
    }
  }

  lemma TailNames(a: seq<string>)
    requires Ascending(a) && a != []
    ensures NameSet(a[1..]) == NameSet(a) - {a[0]}
  {
    BeforeTrichotomy(a[0], a[0]);
    assert a == [a[0]] + a[1..];
    forall n | n in a[1..] ensures n != a[0] {
      var i :| 0 <= i < |a[1..]| && a[1..][i] == n;
      assert Before(a[0], a[i + 1]);
    }
  }

  lemma FirstNamed(s: seq<string>)
    requires s != []
    ensures NameSet(s) != {}
  {
    assert s[0] in NameSet(s);
  }

  /** A set of names has one ascending listing, so the input order of a sort cannot show in its output. */
  lemma {:induction false} AscendingUnique(a: seq<string>, b: seq<string>)
    requires Ascending(a) && Ascending(b) && NameSet(a) == NameSet(b)
    ensures a == b
  {
    if a == [] {
      assert NameSet(a) == {};
      if b != [] { FirstNamed(b); }
    } else {
      assert a[0] in NameSet(b);
      assert b != [] && b[0] in NameSet(a);
      var i :| 0 <= i < |b| && b[i] == a[0];
      var j :| 0 <= j < |a| && a[j] == b[0];
      BeforeTrichotomy(a[0], b[0]);
      assert a[0] == b[0];
      TailNames(a);
      TailNames(b);
      AscendingUnique(a[1..], b[1..]);
      assert a == [a[0]] + a[1..] && b == [b[0]] + b[1..];
    }
  }
}
