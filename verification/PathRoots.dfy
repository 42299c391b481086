/** When one list of path roots grants no more than another (src/openworkproof/binding.py:247-257). */
module PathRoots {
  import opened Collections

  predicate RootIsCovered(root: string, allowed: string) {
    root == allowed || allowed + "/" <= root
  }

  predicate RootsAreCovered(roots: seq<string>, allowed: seq<string>) {
    forall root | root in roots :: exists a | a in allowed :: RootIsCovered(root, a)
  }

  /** The components between slashes. */
  function Components(path: string): (parts: seq<string>)
    ensures |parts| >= 1
  {
    if path == "" then [""]
    else
      var rest := Components(path[1..]);
      if path[0] == '/' then [""] + rest else [[path[0]] + rest[0]] + rest[1..]
  }

  lemma ComponentsStep(c: char, path: string)
    ensures var rest := Components(path);
      Components([c] + path) == if c == '/' then [""] + rest else [[c] + rest[0]] + rest[1..]
  {
    assert ([c] + path)[1..] == path;
  }

  lemma HeadOfJoin(a: seq<string>, b: seq<string>, c: char)
    requires a != []
    ensures [[c] + (a + b)[0]] + (a + b)[1..] == ([[c] + a[0]] + a[1..]) + b
    ensures [""] + (a + b) == ([""] + a) + b
  {
    assert (a + b)[1..] == a[1..] + b;
  }

  lemma {:induction false} ComponentsJoin(first: string, more: string)
    ensures Components(first + "/" + more) == Components(first) + Components(more)
  {
    if first == "" {
      assert first + "/" + more == ['/'] + more;
      ComponentsStep('/', more);
    } else {
      var c, tail := first[0], first[1..];
      ComponentsJoin(tail, more);
      assert first + "/" + more == [c] + (tail + "/" + more) && first == [c] + tail;
      ComponentsStep(c, tail + "/" + more);
      ComponentsStep(c, tail);
      HeadOfJoin(Components(tail), Components(more), c);
    }
  }

  /** A list of components spells one path. */
  function Spell(parts: seq<string>): string {
    if parts == [] then ""
    else if |parts| == 1 then parts[0]
    else parts[0] + "/" + Spell(parts[1..])
  }

  lemma {:induction false} SpellComponents(path: string)
    ensures Spell(Components(path)) == path
  {
    if path != "" {
      SpellComponents(path[1..]);
      var rest := Components(path[1..]);
      if path[0] == '/' {
        assert ([""] + rest)[1..] == rest;
      } else {
        assert ([[path[0]] + rest[0]] + rest[1..])[1..] == rest[1..];
      }
    }
  }

  lemma {:induction false} SpellJoin(a: seq<string>, b: seq<string>)
    requires a != [] && b != []
    ensures Spell(a + b) == Spell(a) + "/" + Spell(b)
    decreases |a|
  {
    assert (a + b)[1..] == a[1..] + b;
    if |a| > 1 {
      SpellJoin(a[1..], b);
    }
  }

  /** A root is covered exactly when the allowed one is its leading components: text prefixes never leak. */
  lemma CoveredIffComponents(root: string, allowed: string)
    ensures RootIsCovered(root, allowed) <==> Components(allowed) <= Components(root)
  {
    if allowed + "/" <= root {
      var more := root[|allowed| + 1..];
      assert root == allowed + "/" + more;
      ComponentsJoin(allowed, more);
    }
    if Components(allowed) <= Components(root) && root != allowed {
      var rest := Components(root)[|Components(allowed)|..];
      assert Components(root) == Components(allowed) + rest;
      SpellComponents(root);
      SpellComponents(allowed);
      assert rest == [] ==> Components(root) == Components(allowed);
      if rest != [] {
        SpellJoin(Components(allowed), rest);
      }
    }
  }

  /** Some root of the list contains the path. */
  ghost predicate Permits(roots: seq<string>, path: string) {
    exists root :: root in roots && RootIsCovered(path, root)
  }

  /** The check passes exactly when the first list permits no path the second does not. */
  lemma CoveredIffNoWider(roots: seq<string>, allowed: seq<string>)
    ensures RootsAreCovered(roots, allowed) <==> forall path :: Permits(roots, path) ==> Permits(allowed, path)
  {
    if RootsAreCovered(roots, allowed) {
      forall path | Permits(roots, path)
        ensures Permits(allowed, path)
      {
        var root :| root in roots && RootIsCovered(path, root);
        var a :| a in allowed && RootIsCovered(root, a);
        CoveredIffComponents(path, root);
        CoveredIffComponents(root, a);
        CoveredIffComponents(path, a);
      }
    }
    if forall path :: Permits(roots, path) ==> Permits(allowed, path) {
      forall root | root in roots
        ensures exists a :: a in allowed && RootIsCovered(root, a)
      {
        assert RootIsCovered(root, root);
        assert Permits(roots, root);
      }
    }
  }
}
