/** `path.resolve(PROJECT_ROOT, path)`: which file a path, as written, stands for. */
module Resolution {
  import opened Lines

  /** Neither empty nor one of the two relative segments. */
  predicate Plain(segment: string) {
    segment != "" && segment != "." && segment != ".." && Lacks('/', segment)
  }

  predicate AllPlain(segments: seq<string>) {
    forall segment :: segment in segments ==> Plain(segment)
  }

  /** Walks the segments from a directory: empty ones and `.` stay, `..` goes up, the others go down. */
  function Walk(base: seq<string>, segments: seq<string>): seq<string>
    decreases |segments|
  {
    if segments == [] then base
    else
      var next := segments[0];
      Walk(if next == "" || next == "." then base
           else if next == ".." then (if base == [] then [] else base[..|base| - 1])
           else base + [next],
           segments[1..])
  }

  /** The absolute path, as segments from the root of the file system; `root` is the project directory. */
  function Resolve(root: seq<string>, path: string): seq<string> {
    Walk(if path != "" && path[0] == '/' then [] else root, Split('/', path))
  }

  /** The name of that place in a file store: relative inside the project, absolute outside. */
  function Locate(root: seq<string>, path: string): string {
    var segments := Resolve(root, path);
    if root <= segments then Join('/', segments[|root|..]) else "/" + Join('/', segments)
  }

  lemma {:induction false} WalkPlain(base: seq<string>, segments: seq<string>)
    requires AllPlain(segments)
    ensures Walk(base, segments) == base + segments
    decreases |segments|
  {
    if segments == [] {
      assert base + segments == base;
    } else {
      assert Plain(segments[0]);
      WalkPlain(base + [segments[0]], segments[1..]);
      assert base + [segments[0]] + segments[1..] == base + segments;
    }
  }

  lemma {:induction false} WalkStaysPlain(base: seq<string>, segments: seq<string>)
    requires AllPlain(base) && forall segment :: segment in segments ==> Lacks('/', segment)
    ensures AllPlain(Walk(base, segments))
    decreases |segments|
  {
    if segments == [] {
    } else {
      var next := segments[0];
      assert Lacks('/', next);
      var base' := if next == "" || next == "." then base
                   else if next == ".." then (if base == [] then [] else base[..|base| - 1])
                   else base + [next];
      assert AllPlain(base');
      WalkStaysPlain(base', segments[1..]);
    }
  }

  /** A path of plain segments stands for itself, wherever the project lies. */
  lemma PlainPathIsItself(root: seq<string>, segments: seq<string>)
    requires segments != [] && AllPlain(segments)
    ensures Locate(root, Join('/', segments)) == Join('/', segments)
  {
    var path := Join('/', segments);
    assert Plain(segments[0]);
    assert path[0] == segments[0][0] != '/';
    SplitJoin('/', segments);
    WalkPlain(root, segments);
    assert (root + segments)[|root|..] == segments;
  }

  lemma JoinPlainIsInjective(a: seq<string>, b: seq<string>)
    requires AllPlain(a) && AllPlain(b) && Join('/', a) == Join('/', b)
    ensures a == b
  {
    if a == [] || b == [] {
      JoinPlainNotEmpty(a);
      JoinPlainNotEmpty(b);
    } else {
      SplitJoin('/', a);
      SplitJoin('/', b);
    }
  }

  lemma JoinPlainNotEmpty(a: seq<string>)
    requires AllPlain(a)
    ensures a != [] ==> Join('/', a) != "" && Join('/', a)[0] != '/'
  {
    if a != [] {
      assert Plain(a[0]);
    }
  }

  /** Two spellings name the same place in the store exactly when they resolve to the same absolute path. */
  lemma LocateIsFaithful(root: seq<string>, a: string, b: string)
    requires AllPlain(root)
    ensures Locate(root, a) == Locate(root, b) <==> Resolve(root, a) == Resolve(root, b)
  {
    var sa, sb := Resolve(root, a), Resolve(root, b);
    SplitYieldsPieces('/', a);
    SplitYieldsPieces('/', b);
    WalkStaysPlain(if a != "" && a[0] == '/' then [] else root, Split('/', a));
    WalkStaysPlain(if b != "" && b[0] == '/' then [] else root, Split('/', b));
    if Locate(root, a) == Locate(root, b) {
      SamePlace(root, sa, sb);
    }
  }

  lemma SamePlace(root: seq<string>, a: seq<string>, b: seq<string>)
    requires AllPlain(a) && AllPlain(b)
    requires (if root <= a then Join('/', a[|root|..]) else "/" + Join('/', a)) ==
             (if root <= b then Join('/', b[|root|..]) else "/" + Join('/', b))
    ensures a == b
  {
    if root <= a && root <= b {
      JoinPlainIsInjective(a[|root|..], b[|root|..]);
      assert a == root + a[|root|..] && b == root + b[|root|..];
    } else if root <= a {
      JoinPlainNotEmpty(a[|root|..]);
    } else if root <= b {
      JoinPlainNotEmpty(b[|root|..]);
    } else {
      assert ("/" + Join('/', a))[1..] == Join('/', a) && ("/" + Join('/', b))[1..] == Join('/', b);
      JoinPlainIsInjective(a, b);
    }
  }

  // ---------- Laws of resolution ----------

  lemma {:induction false} WalkAppend(base: seq<string>, a: seq<string>, b: seq<string>)
    ensures Walk(base, a + b) == Walk(Walk(base, a), b)
    decreases |a|
  {
    if a == [] {
      assert a + b == b;
    } else {
      var next := a[0];
      var base' := if next == "" || next == "." then base
                   else if next == ".." then (if base == [] then [] else base[..|base| - 1])
                   else base + [next];
      WalkAppend(base', a[1..], b);
      assert (a + b)[1..] == a[1..] + b;
    }
  }

  /** Where one more segment leads. */
  predicate StepsTo(place: seq<string>, segment: string, next: seq<string>) {
    && (segment in ["", "."] ==> next == place)
    && (segment == ".." ==> next == if place == [] then [] else place[..|place| - 1])
    && (segment !in ["", ".", ".."] ==> next == place + [segment])
  }

  lemma OneSegment(base: seq<string>, segment: string)
    ensures StepsTo(base, segment, Walk(base, [segment]))
  {
    assert [segment][1..] == [];
  }

  /** One segment from the project directory; `..` leaves it. */
  lemma ResolveSegment(root: seq<string>, segment: string)
    requires Lacks('/', segment)
    ensures StepsTo(root, segment, Resolve(root, segment))
  {
    SplitSinglePiece('/', segment);
    OneSegment(root, segment);
  }

  /** One more segment after any path. */
  lemma ResolveNext(root: seq<string>, path: string, segment: string)
    requires path != "" && Lacks('/', segment)
    ensures StepsTo(Resolve(root, path), segment, Resolve(root, path + "/" + segment))
  {
    var base := if path[0] == '/' then [] else root;
    SplitAppend('/', path, segment);
    SplitSinglePiece('/', segment);
    WalkAppend(base, Split('/', path), [segment]);
    OneSegment(Walk(base, Split('/', path)), segment);
    assert (path + "/" + segment)[0] == path[0];
  }

  /** A leading slash starts at the root of the file system, wherever the project lies. */
  lemma ResolveAbsolute(root: seq<string>, path: string)
    ensures Resolve(root, "/" + path) == Resolve([], path)
  {
    SplitAppend('/', "", path);
    assert "" + ['/'] + path == "/" + path;
    WalkAppend([], [""], Split('/', path));
    OneSegment([], "");
  }

  /** Going down and up again. */
  lemma DownAndUp(root: seq<string>, dir: string, name: string)
    requires Plain(dir) && Plain(name)
    ensures Locate(root, dir + "/" + ".." + "/" + name) == name
  {
    var up := dir + "/" + "..";
    ResolveSegment(root, dir);
    ResolveNext(root, dir, "..");
    assert (root + [dir])[..|root|] == root;
    assert Resolve(root, up) == root;
    ResolveNext(root, up, name);
    assert (root + [name])[|root|..] == [name];
  }

  /** A file of the project by its absolute path. */
  lemma AbsoluteSpelling(root: seq<string>, segments: seq<string>)
    requires AllPlain(root) && AllPlain(segments) && segments != []
    ensures Locate(root, "/" + Join('/', root + segments)) == Join('/', segments)
  {
    var place := root + segments;
    ResolveAbsolute(root, Join('/', place));
    JoinPlainNotEmpty(place);
    SplitJoin('/', place);
    WalkPlain([], place);
    assert [] + place == place;
    assert place[|root|..] == segments;
  }
}
