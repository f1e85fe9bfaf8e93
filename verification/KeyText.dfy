// Flat object keys: parts joined by slashes, and version numbers written in decimal.
//
// Split and Join are Python's str.split("/") and "/".join; each undoes the other, for parts
// without slashes. UnderPrefix turns a test on texts, "does this key start with that
// prefix", into one on parts, which is how every listing of the object store is read.
module KeyText {

  predicate SlashFree(s: string) { '/' !in s }

  ghost predicate Parts(ps: seq<string>) { ps != [] && forall p :: p in ps ==> SlashFree(p) }

  function Join(ps: seq<string>): string
    requires ps != []
  {
    if |ps| == 1 then ps[0] else Join(ps[..|ps| - 1]) + "/" + ps[|ps| - 1]
  }

  // One more character: a slash opens a part, anything else continues the last one.
  function Extend(ps: seq<string>, c: char): (r: seq<string>)
    requires ps != []
    ensures r != []
  {
    if c == '/' then ps + [""] else ps[..|ps| - 1] + [ps[|ps| - 1] + [c]]
  }

  // s.split("/").
  function Split(s: string): (ps: seq<string>)
    ensures ps != []
  {
    if s == "" then [""] else Extend(Split(s[..|s| - 1]), s[|s| - 1])
  }

  predicate StartsWith(s: string, prefix: string) { prefix <= s }

  lemma {:induction false} SplitParts(s: string)
    ensures Parts(Split(s))
  {
    if s == "" {
    } else {
      SplitParts(s[..|s| - 1]);
      var before := Split(s[..|s| - 1]);
      assert before[|before| - 1] in before;
    }
  }

  lemma ExtendAfter(a: seq<string>, ps: seq<string>, c: char)
    requires ps != []
    ensures Extend(a + ps, c) == a + Extend(ps, c)
  {
    if c == '/' {
      assert (a + ps) + [""] == a + (ps + [""]);
    } else {
      assert (a + ps)[..|a + ps| - 1] == a + ps[..|ps| - 1];
    }
  }

  lemma SplitOneMore(s: string, c: char)
    ensures Split(s + [c]) == Extend(Split(s), c)
  {
    assert (s + [c])[..|s|] == s;
  }

  lemma SplitAfterSlashStep(a: string, init: string, c: char)
    requires Split(a + "/" + init) == Split(a) + Split(init)
    ensures Split(a + "/" + (init + [c])) == Split(a) + Split(init + [c])
  {
    SplitOneMore(a + "/" + init, c);
    SplitOneMore(init, c);
    Assoc(a + "/", init, [c]);
    ExtendAfter(Split(a), Split(init), c);
  }

  lemma {:induction false} SplitAfterSlash(a: string, b: string)
    ensures Split(a + "/" + b) == Split(a) + Split(b)
  {
    if b == "" {
      SplitOneMore(a, '/');
      assert a + "/" + b == a + ['/'];
    } else {
      SplitAfterSlash(a, b[..|b| - 1]);
      SplitAfterSlashStep(a, b[..|b| - 1], b[|b| - 1]);
      assert b[..|b| - 1] + [b[|b| - 1]] == b;
    }
  }

  lemma {:induction false} SplitPlain(p: string)
    requires SlashFree(p)
    ensures Split(p) == [p]
  {
    if p == "" {
    } else {
      var init, c := p[..|p| - 1], p[|p| - 1];
      assert p == init + [c] && c in p;
      SplitPlain(init);
      SplitOneMore(init, c);
      assert Extend([init], c) == [init + [c]];
    }
  }

  // Splitting undoes joining, for parts without slashes ...
  lemma {:induction false} SplitJoin(ps: seq<string>)
    requires Parts(ps)
    ensures Split(Join(ps)) == ps
  {
    var init, last := ps[..|ps| - 1], ps[|ps| - 1];
    assert ps == init + [last] && last in ps;
    SplitPlain(last);
    JoinOneMore(init, last);
    if init != [] {
      SplitJoin(init);
      SplitAfterSlash(Join(init), last);
    }
  }

  // ... and joining undoes splitting, for every text.
  lemma {:induction false} JoinSplit(s: string)
    ensures Join(Split(s)) == s
  {
    if s == "" {
    } else {
      var init, c := s[..|s| - 1], s[|s| - 1];
      var before := Split(init);
      assert s == init + [c];
      JoinSplit(init);
      SplitOneMore(init, c);
      if c == '/' {
        JoinOneMore(before, "");
      } else {
        JoinLast(before, c);
      }
    }
  }

  lemma Assoc(a: string, b: string, c: string)
    ensures (a + b) + c == a + (b + c)
  {
  }

  lemma JoinLast(ps: seq<string>, c: char)
    requires ps != []
    ensures Join(ps[..|ps| - 1] + [ps[|ps| - 1] + [c]]) == Join(ps) + [c]
  {
    var init, last := ps[..|ps| - 1], ps[|ps| - 1];
    JoinOneMore(init, last + [c]);
    JoinOneMore(init, last);
    assert init + [last] == ps;
    if init != [] { Assoc(Join(init) + "/", last, [c]); }
  }

  lemma JoinOneMore(init: seq<string>, last: string)
    ensures Join(init + [last]) == if init == [] then last else Join(init) + "/" + last
  {
    assert (init + [last])[..|init|] == init;
  }

  lemma {:induction false} JoinConcat(a: seq<string>, b: seq<string>)
    requires a != [] && b != []
    ensures Join(a + b) == Join(a) + "/" + Join(b)
  {
    var init, last := b[..|b| - 1], b[|b| - 1];
    assert b == init + [last] && a + b == (a + init) + [last];
    JoinOneMore(a + init, last);
    JoinOneMore(init, last);
    if init == [] {
      assert a + init == a;
    } else {
      JoinConcat(a, init);
      Assoc(Join(a) + "/", Join(init), "/");
      Assoc(Join(a) + "/", Join(init) + "/", last);
    }
  }

  // A key is listed under a prefix exactly when its first parts are those of the prefix, and
  // what follows the prefix is its other parts.
  lemma UnderPrefix(ps: seq<string>, key: string)
    requires Parts(ps)
    ensures StartsWith(key, Join(ps) + "/") <==> ps < Split(key)
    ensures StartsWith(key, Join(ps) + "/") ==> Split(key[|Join(ps)| + 1..]) == Split(key)[|ps|..]
  {
    SplitJoin(ps);
    if StartsWith(key, Join(ps) + "/") {
      var rest := key[|Join(ps)| + 1..];
      assert key == Join(ps) + "/" + rest;
      SplitAfterSlash(Join(ps), rest);
    }
    if ps < Split(key) {
      var others := Split(key)[|ps|..];
      JoinSplit(key);
      assert Split(key) == ps + others;
      JoinConcat(ps, others);
      assert Join(ps) + "/" + Join(others) == (Join(ps) + "/") + Join(others);
    }
  }

  // ------------------------------------------------------------------ decimals

  function Digit(d: nat): char
    requires d < 10
  {
    ('0' as int + d) as char
  }

  function Print(n: nat): string {
    if n < 10 then [Digit(n)] else Print(n / 10) + [Digit(n % 10)]
  }

  predicate IsDigit(c: char) { '0' <= c <= '9' }

  // s.isdigit() on ASCII text.
  predicate AllDigits(s: string) { s != "" && forall i :: 0 <= i < |s| ==> IsDigit(s[i]) }

  function Parse(s: string): nat
    requires forall i :: 0 <= i < |s| ==> IsDigit(s[i])
  {
    if s == "" then 0
    else
      assert IsDigit(s[|s| - 1]);
      10 * Parse(s[..|s| - 1]) + (s[|s| - 1] as int - '0' as int)
  }

  lemma {:induction false} PrintIsDigits(n: nat)
    ensures AllDigits(Print(n)) && SlashFree(Print(n))
  {
    if n >= 10 { PrintIsDigits(n / 10); }
  }

  // int(str(n)) == n.
  lemma {:induction false} ParsePrint(n: nat)
    ensures AllDigits(Print(n)) && Parse(Print(n)) == n
  {
    PrintIsDigits(n);
    if n >= 10 {
      PrintIsDigits(n / 10);
      ParsePrint(n / 10);
      assert Print(n)[..|Print(n)| - 1] == Print(n / 10);
    } else {
      assert Print(n)[..0] == "";
    }
  }

  // ------------------------------------------------------------------ sorted names

  // Texts in the order Python compares them, character by character.
  predicate Precedes(a: string, b: string) {
    if a == "" || b == "" then a == "" && b != ""
    else if a[0] != b[0] then a[0] < b[0]
    else Precedes(a[1..], b[1..])
  }

  lemma {:induction false} PrecedesTotal(a: string, b: string)
    ensures if a == b then !Precedes(a, b) else Precedes(a, b) != Precedes(b, a)
  {
    if a != "" && b != "" && a[0] == b[0] {
      PrecedesTotal(a[1..], b[1..]);
      assert a == [a[0]] + a[1..] && b == [b[0]] + b[1..];
    }
  }

  lemma {:induction false} PrecedesTransitive(a: string, b: string, c: string)
    requires Precedes(a, b) && Precedes(b, c)
    ensures Precedes(a, c)
  {
    if a != "" && a[0] == b[0] && b[0] == c[0] { PrecedesTransitive(a[1..], b[1..], c[1..]); }
  }

  ghost predicate Ascending(names: seq<string>) {
    forall i, j :: 0 <= i < j < |names| ==> Precedes(names[i], names[j])
  }

  // sorted(names): each of the names once, in ascending order.
  ghost predicate IsSorted(sorted: seq<string>, names: set<string>) {
    Ascending(sorted) && forall n :: n in sorted <==> n in names
  }

  lemma InsertAscending(names: seq<string>, at: nat, name: string)
    requires Ascending(names) && at <= |names| && name !in names
    requires forall i :: 0 <= i < at ==> Precedes(names[i], name)
    requires at < |names| ==> !Precedes(names[at], name)
    ensures Ascending(names[..at] + [name] + names[at..])
  {
    if at < |names| {
      PrecedesTotal(names[at], name);
      forall j | at < j < |names| ensures Precedes(name, names[j]) { PrecedesTransitive(name, names[at], names[j]); }
    }
  }

  method SortNames(names: set<string>) returns (sorted: seq<string>)
    ensures IsSorted(sorted, names)
  {
    sorted := [];
    var rest := names;
    while rest != {}
      invariant rest <= names && IsSorted(sorted, names - rest)
    {
      var name :| name in rest;
      var at := 0;
      while at < |sorted| && Precedes(sorted[at], name)
        invariant at <= |sorted| && forall i :: 0 <= i < at ==> Precedes(sorted[i], name)
      {
        at := at + 1;
      }
      InsertAscending(sorted, at, name);
      assert forall n :: n in sorted[..at] + [name] + sorted[at..] <==> n in sorted || n == name by {
        assert sorted == sorted[..at] + sorted[at..];
      }
      sorted := sorted[..at] + [name] + sorted[at..];
      rest := rest - {name};
    }
  }

  lemma SortedIsEmptyIff(sorted: seq<string>, names: set<string>)
    requires IsSorted(sorted, names)
    ensures sorted == [] <==> names == {}
  {
    if sorted != [] { assert sorted[0] in names; }
    if name :| name in names { assert name in sorted; }
  }

  // There is only one such list.
  lemma {:induction false} SortedIsUnique(a: seq<string>, b: seq<string>, names: set<string>)
    requires IsSorted(a, names) && IsSorted(b, names)
    ensures a == b
  {
    SortedIsEmptyIff(a, names);
    SortedIsEmptyIff(b, names);
    if names != {} {
      var x, y := a[|a| - 1], b[|b| - 1];
      LastIsGreatest(a, y);
      LastIsGreatest(b, x);
      PrecedesTotal(x, y);
      WithoutLast(a, names);
      WithoutLast(b, names);
      SortedIsUnique(a[..|a| - 1], b[..|b| - 1], names - {x});
      assert a == a[..|a| - 1] + [x] && b == b[..|b| - 1] + [y];
    }
  }

  lemma LastIsGreatest(names: seq<string>, name: string)
    requires Ascending(names) && name in names
    ensures name == names[|names| - 1] || Precedes(name, names[|names| - 1])
  {
  }

  lemma WithoutLast(sorted: seq<string>, names: set<string>)
    requires IsSorted(sorted, names) && sorted != []
    ensures IsSorted(sorted[..|sorted| - 1], names - {sorted[|sorted| - 1]})
  {
    var init, last := sorted[..|sorted| - 1], sorted[|sorted| - 1];
    assert sorted == init + [last];
    forall n | n in init ensures n != last { PrecedesTotal(last, last); }
  }
}
