/** Paths as sequences of components, and what a relative name resolves to lexically. */
module Paths {
  import opened Text

  type Path = seq<string>

  /** A component that names an entry. */
  predicate Plain(part: string) {
    part != "" && part != "." && part != ".."
  }

  function Enter(at: Path, part: string): Path {
    if part == "" || part == "." then at
    else if part == ".." then (if at == [] then [] else at[..|at| - 1])
    else at + [part]
  }

  /** One step of a resolution: down by an entry's name, up by two dots, and nowhere by one or by nothing;
      the root is its own parent. */
  lemma Steps(at: Path, part: string)
    ensures Plain(part) ==> Enter(at, part) == at + [part] && Enter(at + [part], "..") == at
    ensures Enter(at, ".") == at == Enter(at, "") && Enter([], "..") == []
  {
    assert "." != ".." && "" != "..";
    assert (at + [part])[..|at|] == at;
  }

  function Walk(at: Path, parts: seq<string>): Path
    decreases |parts|
  {
    if parts == [] then at else Walk(Enter(at, parts[0]), parts[1..])
  }

  /** The entry a relative name stands for, resolved lexically. */
  function Resolve(name: string): Path {
    Walk([], Split(name, '/'))
  }

  lemma {:induction false} WalkConcat(at: Path, a: seq<string>, b: seq<string>)
    ensures Walk(at, a + b) == Walk(Walk(at, a), b)
    decreases |a|
  {
    if a == [] {
      assert a + b == b;
    } else {
      assert (a + b)[1..] == a[1..] + b;
      WalkConcat(Enter(at, a[0]), a[1..], b);
    }
  }

  lemma {:induction false} WalkPlain(at: Path, parts: seq<string>)
    requires forall part :: part in parts ==> Plain(part)
    ensures Walk(at, parts) == at + parts
    decreases |parts|
  {
    if parts != [] {
      assert Plain(parts[0]);
      WalkPlain(at + [parts[0]], parts[1..]);
      assert at + parts == at + [parts[0]] + parts[1..];
    }
  }
}
