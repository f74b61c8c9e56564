/** `split_new_path` (editor/common.py): a path is split into the part
    that already exists and the part that would have to be created.

    Paths are normalised, so they are modelled by whether they are
    absolute and their components, none of them empty or ".". The root
    "/" and the current directory "." have no components; splitting a
    path of one component gives one of them back as the head (the empty
    head of a relative path normalises to "."). Which paths exist is a
    parameter, `present`. */
module Paths {
  import opened Py

  datatype Path = Path(absolute: bool, parts: seq<string>)

  /** The path of the first `n` components. */
  function Prefix(p: Path, n: nat): (q: Path)
    requires n <= |p.parts|
    ensures q.absolute == p.absolute && |q.parts| == n
  {
    Path(p.absolute, p.parts[..n])
  }

  /** The normalised head of `os.path.split`. */
  function Parent(p: Path): (q: Path)
    requires |p.parts| >= 1
    ensures q == Prefix(p, |p.parts| - 1)
  {
    Path(p.absolute, p.parts[..|p.parts| - 1])
  }

  /** `os.path.join` of a path and a relative path given as components. */
  function Join(p: Path, rest: seq<string>): (q: Path)
    ensures q.absolute == p.absolute && q.parts == p.parts + rest
  {
    Path(p.absolute, p.parts + rest)
  }

  /** Every ancestor of a path that exists exists too. */
  ghost predicate PrefixClosed(present: Path -> bool)
  {
    forall p: Path {:trigger Parent(p)} | |p.parts| >= 1 && present(p) :: present(Parent(p))
  }

  lemma PrefixOfPrefix(p: Path, n: nat)
    requires n < |p.parts|
    ensures Prefix(Parent(p), n) == Prefix(p, n)
  {
    assert p.parts[..|p.parts| - 1][..n] == p.parts[..n];
  }

  lemma WholePrefix(p: Path)
    ensures Prefix(p, |p.parts|) == p
  {
    assert p.parts[..|p.parts|] == p.parts;
  }

  /** `split_new_path`. A path that exists is returned whole with nothing
      new; otherwise its last component is added to the new part of its
      parent's split. When neither the path nor any ancestor exists, the
      split of the root (or of ".") returns that same path and the
      recursion never ends. */
  function SplitNewPath(present: Path -> bool, p: Path): (r: Result<(Path, seq<string>)>)
    ensures r.Ok? <==> exists n: nat | n <= |p.parts| :: present(Prefix(p, n))
    ensures present(p) ==> r == Ok((p, []))
    ensures r.Raise? ==> r.error == RecursionError
    ensures r.Ok? ==>
      && present(r.value.0)
      && Join(r.value.0, r.value.1) == p
      && forall n: nat | |r.value.0.parts| < n <= |p.parts| :: !present(Prefix(p, n))
    decreases |p.parts|
  {
    if present(p) then
      WholePrefix(p);
      Ok((p, []))
    else if |p.parts| == 0 then
      Raise(RecursionError)
    else
      var head := Parent(p);
      var trail := p.parts[|p.parts| - 1];
      var r := SplitNewPath(present, head);
      SplitOfParent(present, p, r);
      match r
      case Raise(e) => Raise(e)
      case Ok((existing, rest)) => Ok((existing, rest + [trail]))
  }

  /** What the split of the parent tells about the path itself. */
  lemma SplitOfParent(present: Path -> bool, p: Path, r: Result<(Path, seq<string>)>)
    requires |p.parts| >= 1 && !present(p)
    requires r.Ok? <==> exists n: nat | n <= |Parent(p).parts| :: present(Prefix(Parent(p), n))
    requires r.Ok? ==>
      && Join(r.value.0, r.value.1) == Parent(p)
      && forall n: nat | |r.value.0.parts| < n <= |Parent(p).parts| :: !present(Prefix(Parent(p), n))
    ensures r.Ok? <==> exists n: nat | n <= |p.parts| :: present(Prefix(p, n))
    ensures r.Ok? ==>
      && Join(r.value.0, r.value.1 + [p.parts[|p.parts| - 1]]) == p
      && forall n: nat | |r.value.0.parts| < n <= |p.parts| :: !present(Prefix(p, n))
  {
    WholePrefix(p);
    forall n: nat | n < |p.parts| {
      PrefixOfPrefix(p, n);
    }
    if r.Ok? {
      var q := Parent(p).parts;
      assert r.value.0.parts + r.value.1 == q;
      assert q + [p.parts[|p.parts| - 1]] == p.parts;
    } else {
      forall n: nat | n <= |p.parts| ensures !present(Prefix(p, n)) {
        if n < |p.parts| {
          assert !present(Prefix(Parent(p), n));
        }
      }
    }
  }

  /** The recursion ends whenever the root of the path, "/" or ".",
      exists. */
  lemma {:induction false} SplitEndsAtRoot(present: Path -> bool, p: Path)
    requires present(Path(p.absolute, []))
    ensures SplitNewPath(present, p).Ok?
  {
    assert Prefix(p, 0) == Path(p.absolute, []);
  }

  /** With existence closed under ancestors, the existing part is the
      longest existing ancestor: every shorter one exists and no longer
      one does. */
  lemma {:induction false} ExistingPartIsLongestAncestor(present: Path -> bool, p: Path)
    requires PrefixClosed(present)
    requires SplitNewPath(present, p).Ok?
    ensures var k := |SplitNewPath(present, p).value.0.parts|;
      && SplitNewPath(present, p).value.0 == Prefix(p, k)
      && (forall n: nat | n <= k :: present(Prefix(p, n)))
      && (forall n: nat | k < n <= |p.parts| :: !present(Prefix(p, n)))
  {
    var r := SplitNewPath(present, p).value;
    var k := |r.0.parts|;
    assert r.0.parts + r.1 == p.parts;
    assert r.0.parts == p.parts[..k];
    forall n: nat | n <= k ensures present(Prefix(p, n)) {
      AncestorsPresent(present, Prefix(p, k), n);
      assert Prefix(Prefix(p, k), n) == Prefix(p, n);
    }
  }

  /** In a prefix-closed world, every prefix of an existing path exists. */
  lemma {:induction false} AncestorsPresent(present: Path -> bool, p: Path, n: nat)
    requires PrefixClosed(present) && present(p) && n <= |p.parts|
    ensures present(Prefix(p, n))
    decreases |p.parts| - n
  {
    if n == |p.parts| {
      WholePrefix(p);
    } else {
      AncestorsPresent(present, p, n + 1);
      var q := Prefix(p, n + 1);
      assert present(Parent(q));
      assert Parent(q) == Prefix(p, n) by {
        assert p.parts[..n + 1][..n] == p.parts[..n];
      }
    }
  }
}
