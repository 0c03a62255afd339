/** The order in which `sorted` lists paths: part by part, and parts character by character. */
module PathOrder {
  type Path = seq<string>

  ghost predicate StrictTotal<T(!new)>(less: (T, T) -> bool) {
    && (forall a :: !less(a, a))
    && (forall a, b :: a == b || less(a, b) || less(b, a))
    && (forall a, b, c :: less(a, b) && less(b, c) ==> less(a, c))
  }

  /** The lexicographic order of sequences. */
  predicate Lex<T(==)>(less: (T, T) -> bool, a: seq<T>, b: seq<T>)
    decreases |a|
  {
    b != [] && (a == [] || less(a[0], b[0]) || (a[0] == b[0] && Lex(less, a[1..], b[1..])))
  }

  function CharLess(): (char, char) -> bool { (a: char, b: char) => a < b }

  function NameLess(): (string, string) -> bool { (a: string, b: string) => Lex(CharLess(), a, b) }

  predicate Before(p: Path, q: Path) {
    Lex(NameLess(), p, q)
  }

  lemma {:induction false} LexNever<T(!new)>(less: (T, T) -> bool, a: seq<T>)
    requires StrictTotal(less)
    ensures !Lex(less, a, a)
    decreases |a|
  {
    if a != [] { LexNever(less, a[1..]); }
  }

  lemma {:induction false} LexEither<T(!new)>(less: (T, T) -> bool, a: seq<T>, b: seq<T>)
    requires StrictTotal(less)
    ensures a == b || Lex(less, a, b) || Lex(less, b, a)
    decreases |a|
  {
    if a != [] && b != [] {
      LexEither(less, a[1..], b[1..]);
      if a[0] == b[0] && a[1..] == b[1..] {
        assert a == [a[0]] + a[1..] && b == [b[0]] + b[1..];
      }
    }
  }

  lemma {:induction false} LexChain<T(!new)>(less: (T, T) -> bool, a: seq<T>, b: seq<T>, c: seq<T>)
    requires StrictTotal(less) && Lex(less, a, b) && Lex(less, b, c)
    ensures Lex(less, a, c)
    decreases |a|
  {
    if a != [] && a[0] == b[0] && b[0] == c[0] && Lex(less, a[1..], b[1..]) && Lex(less, b[1..], c[1..]) {
      LexChain(less, a[1..], b[1..], c[1..]);
    }
  }

  lemma NamesOrdered()
    ensures StrictTotal(NameLess())
  {
    var less := CharLess();
    assert StrictTotal(less);
    forall a: string ensures !Lex(less, a, a) { LexNever(less, a); }
    forall a: string, b: string ensures a == b || Lex(less, a, b) || Lex(less, b, a) { LexEither(less, a, b); }
    forall a: string, b: string, c: string | Lex(less, a, b) && Lex(less, b, c) ensures Lex(less, a, c) {
      LexChain(less, a, b, c);
    }
  }

  /** Any two different paths are ordered one way and not the other. */
  lemma OneBefore(p: Path, q: Path)
    ensures !Before(p, p)
    ensures p != q ==> (Before(p, q) <==> !Before(q, p))
  {
    NamesOrdered();
    LexNever(NameLess(), p);
    LexEither(NameLess(), p, q);
    if Before(p, q) && Before(q, p) { LexChain(NameLess(), p, q, p); }
  }

  lemma BeforeChain(p: Path, q: Path, r: Path)
    requires Before(p, q) && Before(q, r)
    ensures Before(p, r)
  {
    NamesOrdered();
    LexChain(NameLess(), p, q, r);
  }

  predicate IsFirst(paths: set<Path>, p: Path) {
    p in paths && forall q :: q in paths && q != p ==> Before(p, q)
  }

  /** Paths can be listed in order: there is always a first one. */
  lemma {:induction false} FirstExists(paths: set<Path>) returns (first: Path)
    requires paths != {}
    ensures IsFirst(paths, first)
    decreases |paths|
  {
    var p :| p in paths;
    var rest := paths - {p};
    if rest == {} {
      first := p;
    } else {
      var q := FirstExists(rest);
      OneBefore(p, q);
      first := if Before(p, q) then p else q;
      forall r | r in paths && r != first ensures Before(first, r) {
        if first == p && r != q { BeforeChain(p, q, r); }
      }
    }
  }
}
