/**
  AppendFileName (melon/builtin/common.cc): append a file name to a directory
  string, resolving "." and ".." as the /dir page needs it.

  Strings are C strings without embedded NUL characters.
*/
module FilePath {

  // ----- What a path string denotes

  /** Where the last component of a path that does not end in a slash begins. */
  function LastStart(path: string): (k: nat)
    ensures k <= |path|
    ensures forall x :: k <= x < |path| ==> path[x] != '/'
    ensures k == 0 || path[k - 1] == '/'
  {
    if path == "" || path[|path| - 1] == '/' then |path| else LastStart(path[..|path| - 1])
  }

  /** The non-empty components of a path, in order. */
  function Components(path: string): (cs: seq<string>) {
    if path == "" then []
    else if path[|path| - 1] == '/' then Components(path[..|path| - 1])
    else Components(path[..LastStart(path)]) + [path[LastStart(path)..]]
  }

  /**
    A place in the tree: `ups` levels above the starting directory, then down
    through `names`. An absolute location starts at the root and has no ups.
  */
  datatype Location = Location(absolute: bool, ups: nat, names: seq<string>)

  function Up(l: Location): Location {
    if l.names != [] then l.(names := l.names[..|l.names| - 1])
    else if l.absolute then l
    else l.(ups := l.ups + 1)
  }

  /** Follow one component: "" and "." stay, ".." goes up, a name goes down. */
  function Step(l: Location, c: string): Location {
    if c == "" || c == "." then l
    else if c == ".." then Up(l)
    else l.(names := l.names + [c])
  }

  function Walk(l: Location, cs: seq<string>): Location {
    if cs == [] then l else Step(Walk(l, cs[..|cs| - 1]), cs[|cs| - 1])
  }

  const HERE := Location(false, 0, [])

  predicate IsAbsolute(path: string) {
    path != "" && path[0] == '/'
  }

  /** The location a path string denotes; the empty string denotes the starting directory. */
  function Denotes(path: string): Location {
    Walk(Location(IsAbsolute(path), 0, []), Components(path))
  }

  /** Where a directory and a file name lead together; the name may itself be a path. */
  function Target(dir: string, filename: string): Location {
    if dir == "" then Denotes(filename) else Walk(Denotes(dir), Components(filename))
  }

  function UpN(l: Location, n: nat): Location {
    if n == 0 then l else Up(UpN(l, n - 1))
  }

  // ----- When AppendFileName is right

  predicate FirstComponentHandled(first: string) {
    first == "." || (|first| >= 2 && first != "..")
  }

  /**
    The inputs on which the code denotes the right place. It fails only when ".."
    is appended to a relative directory, nothing after the first component absorbs
    the "..", and that first component is ".." or one character other than '.'.
  */
  predicate Resolvable(dir: string, filename: string) {
    filename == ".." && dir != "" && !IsAbsolute(dir) && Components(dir) != [] ==>
      || FirstComponentHandled(Components(dir)[0])
      || Walk(HERE, Components(dir)[1..]).names != []
  }

  // ----- Lemmas about components

  predicate SlashFree(s: string) {
    forall x :: 0 <= x < |s| ==> s[x] != '/'
  }

  lemma LastStartUnique(path: string, k: nat)
    requires k <= |path| && SlashFree(path[k..]) && (k == 0 || path[k - 1] == '/')
    ensures LastStart(path) == k
  {
  }

  lemma TrailingSlash(path: string)
    ensures Components(path + "/") == Components(path)
  {
  }

  lemma {:induction false} TrimSlashes(path: string, n: nat)
    requires n <= |path|
    requires forall x :: n <= x < |path| ==> path[x] == '/'
    ensures Components(path) == Components(path[..n])
    decreases |path|
  {
    if n == |path| {
      assert path[..n] == path;
    } else {
      TrimSlashes(path[..|path| - 1], n);
      assert path[..|path| - 1][..n] == path[..n];
    }
  }

  lemma AppendComponent(dir: string, c: string)
    requires c != "" && SlashFree(c)
    requires dir == "" || dir[|dir| - 1] == '/'
    ensures Components(dir + c) == Components(dir) + [c]
  {
    var p := dir + c;
    assert p[|dir|..] == c && p[..|dir|] == dir;
    LastStartUnique(p, |dir|);
  }

  lemma SplitAppended(dir: string, path: string, k: nat) returns (front: string, last: string)
    requires dir != "" && dir[|dir| - 1] == '/' && path != "" && path[|path| - 1] != '/' && k == LastStart(path)
    ensures front == dir + path[..k] && last == path[k..] && dir + path == front + last
    ensures front[|front| - 1] == '/' && last != "" && SlashFree(last)
  {
    front, last := dir + path[..k], path[k..];
    assert k > 0 ==> front[|front| - 1] == path[k - 1];
  }

  lemma LastAppended(dir: string, path: string, k: nat)
    requires dir != "" && dir[|dir| - 1] == '/' && path != "" && path[|path| - 1] != '/' && k == LastStart(path)
    ensures Components(dir + path) == Components(dir + path[..k]) + [path[k..]]
  {
    var front, last := SplitAppended(dir, path, k);
    AppendComponent(front, last);
  }

  lemma DropSlash(dir: string, path: string)
    requires path != "" && path[|path| - 1] == '/'
    ensures Components(dir + path) == Components(dir + path[..|path| - 1])
  {
    var p := dir + path;
    assert p[..|p| - 1] == dir + path[..|path| - 1];
  }

  /** Components of a path appended after a slash follow those in front of it. */
  lemma {:induction false} AppendPath(dir: string, path: string)
    requires dir != "" && dir[|dir| - 1] == '/'
    ensures Components(dir + path) == Components(dir) + Components(path)
    decreases |path|
  {
    if path == "" {
      assert dir + path == dir;
    } else if path[|path| - 1] == '/' {
      DropSlash(dir, path);
      AppendPath(dir, path[..|path| - 1]);
    } else {
      var k := LastStart(path);
      LastAppended(dir, path, k);
      SplitLast(path);
      AppendPath(dir, path[..k]);
    }
  }

  lemma SplitLast(path: string)
    requires path != "" && path[|path| - 1] != '/'
    ensures Components(path) == Components(path[..LastStart(path)]) + [path[LastStart(path)..]]
    ensures path[LastStart(path)..] != ""
  {
  }

  lemma {:induction false} AppendWalk(l: Location, cs: seq<string>, c: string)
    ensures Walk(l, cs + [c]) == Step(Walk(l, cs), c)
  {
  }

  lemma {:induction false} WalkConcat(l: Location, a: seq<string>, b: seq<string>)
    ensures Walk(l, a + b) == Walk(Walk(l, a), b)
    decreases |b|
  {
    if b == [] {
      assert a + b == a;
    } else {
      var n := |b| - 1;
      assert a + b == (a + b[..n]) + [b[n]];
      AppendWalk(l, a + b[..n], b[n]);
      WalkConcat(l, a, b[..n]);
    }
  }

  lemma {:induction false} UpNKeepsAbsolute(l: Location, n: nat)
    ensures UpN(l, n).absolute == l.absolute
  {
    if n != 0 {
      UpNKeepsAbsolute(l, n - 1);
    }
  }

  /** Walking anywhere is: up as often as the relative walk goes up, then down its names. */
  lemma {:induction false} WalkFactors(l: Location, cs: seq<string>)
    ensures var r := Walk(HERE, cs); var u := UpN(l, r.ups);
            !r.absolute && Walk(l, cs) == u.(names := u.names + r.names)
  {
    if cs == [] {
      assert l.names + [] == l.names;
    } else {
      var n := |cs| - 1;
      WalkFactors(l, cs[..n]);
      var r := Walk(HERE, cs[..n]);
      var u := UpN(l, r.ups);
      var c := cs[n];
      if c == "" || c == "." {
      } else if c == ".." {
        if r.names != [] {
          assert (u.names + r.names)[..|u.names + r.names| - 1] == u.names + r.names[..|r.names| - 1];
        } else {
          assert u.names + r.names == u.names;
          assert UpN(l, r.ups + 1) == Up(u);
          assert Up(u).names + [] == Up(u).names;
        }
      } else {
        assert (u.names + r.names) + [c] == u.names + (r.names + [c]);
      }
    }
  }

  lemma {:induction false} UpNHere(n: nat)
    ensures UpN(HERE, n) == Location(false, n, [])
  {
    if n != 0 {
      UpNHere(n - 1);
    }
  }

  lemma {:induction false} UpNRoot(n: nat)
    ensures UpN(Location(true, 0, []), n) == Location(true, 0, [])
  {
    if n != 0 {
      UpNRoot(n - 1);
    }
  }

  lemma {:induction false} UpNName(f: string, n: nat)
    requires n > 0
    ensures UpN(Location(false, 0, [f]), n) == Location(false, n - 1, [])
  {
    if n == 1 {
      assert UpN(Location(false, 0, [f]), 0) == Location(false, 0, [f]);
    } else {
      UpNName(f, n - 1);
    }
  }

  // ----- The scan from the right

  /**
    The scan has cut `dir0` back to `dir`, a prefix that keeps the first m
    components. While pops are pending, the cut-off components alone lead npop - 1
    levels up and nowhere down; once none is pending they lead down to one name.
  */
  ghost predicate Scanned(dir0: string, dir: string, npop: nat) {
    && dir <= dir0
    && Components(dir) <= Components(dir0)
    && var rest := Walk(HERE, Components(dir0)[|Components(dir)|..]);
       if npop > 0 then rest == Location(false, npop - 1, [])
       else exists x :: rest == Location(false, 0, [x])
  }

  lemma ScanStart(dir: string)
    ensures Scanned(dir, dir, 1)
  {
  }

  /** Counting one more component in front of components that lead n levels up. */
  lemma CountComponent(c: string, rest: seq<string>, n: nat)
    requires c != "" && Walk(HERE, rest) == Location(false, n, [])
    ensures Walk(Step(HERE, c), rest) ==
            if c == "." then Location(false, n, [])
            else if c == ".." then Location(false, n + 1, [])
            else if n == 0 then Location(false, 0, [c])
            else Location(false, n - 1, [])
  {
    var l := Step(HERE, c);
    WalkFactors(l, rest);
    assert UpN(l, n).names + [] == UpN(l, n).names;
    if c == "." {
    } else if c == ".." {
      UpNUp(HERE, n);
      UpNHere(n + 1);
    } else {
      assert HERE.names + [c] == [c];
      if n > 0 {
        UpNName(c, n);
      }
    }
  }

  /** Cutting off one more component and counting it as the code does. */
  lemma ScanStep(dir0: string, dir: string, npop: nat, dir': string, c: string, npop': nat)
    requires Scanned(dir0, dir, npop) && npop > 0
    requires dir' <= dir && Components(dir) == Components(dir') + [c] && c != ""
    requires npop' == if c == "." then npop else if c == ".." then npop + 1 else npop - 1
    ensures Scanned(dir0, dir', npop')
  {
    var cs, m := Components(dir0), |Components(dir')|;
    assert cs[m] == Components(dir)[m] == c;
    assert cs[m..] == [c] + cs[m + 1..];
    WalkConcat(HERE, [c], cs[m + 1..]);
    SingleWalk(c);
    CountComponent(c, cs[m + 1..], npop - 1);
  }

  lemma SingleWalk(c: string)
    ensures Walk(HERE, [c]) == Step(HERE, c)
  {
  }

  lemma {:induction false} UpNUp(l: Location, n: nat)
    ensures UpN(Up(l), n) == UpN(l, n + 1)
  {
    if n == 0 {
      assert UpN(l, 1) == Up(UpN(l, 0));
    } else {
      UpNUp(l, n - 1);
    }
  }

  lemma UpAfterRest(here: Location, rest: seq<string>, npop: nat)
    requires if npop > 0 then Walk(HERE, rest) == Location(false, npop - 1, [])
             else exists x :: Walk(HERE, rest) == Location(false, 0, [x])
    ensures Up(Walk(here, rest)) == UpN(here, npop)
  {
    WalkFactors(here, rest);
    if npop > 0 {
      assert UpN(here, npop - 1).names + [] == UpN(here, npop - 1).names;
    } else {
      var x :| Walk(HERE, rest) == Location(false, 0, [x]);
      assert (here.names + [x])[..|here.names|] == here.names;
    }
  }

  /** Where one level above dir0 lies, seen from the part still to be scanned. */
  lemma TargetFromPrefix(dir0: string, dir: string, npop: nat)
    requires dir0 != "" && Scanned(dir0, dir, npop)
    ensures Up(Denotes(dir0)) == UpN(Walk(Location(IsAbsolute(dir0), 0, []), Components(dir)), npop)
  {
    var cs, m := Components(dir0), |Components(dir)|;
    var base := Location(IsAbsolute(dir0), 0, []);
    assert cs[..m] + cs[m..] == cs && cs[..m] == Components(dir);
    WalkConcat(base, cs[..m], cs[m..]);
    UpAfterRest(Walk(base, cs[..m]), cs[m..], npop);
  }

  /** What the components after the first leave, once the scan has stopped. */
  lemma ResidueAfterFirst(dir0: string, dir: string, npop: nat)
    requires Scanned(dir0, dir, npop) && Components(dir) != []
    ensures npop == 0 ==> Walk(HERE, Components(dir0)[1..]).names != []
    ensures |Components(dir)| == 1 && npop > 0 ==> Walk(HERE, Components(dir0)[1..]).names == []
  {
    var cs, m := Components(dir0), |Components(dir)|;
    assert cs[1..] == cs[1..m] + cs[m..];
    WalkConcat(HERE, cs[1..m], cs[m..]);
    WalkFactors(Walk(HERE, cs[1..m]), cs[m..]);
    if m == 1 {
      assert cs[1..m] == [];
    }
  }

  // ----- Rebuilding leading ".." components

  function UpsString(n: nat): string {
    if n == 0 then "" else if n == 1 then ".." else UpsString(n - 1) + "/" + ".."
  }

  lemma AppendWithSlash(dir: string, filename: string)
    requires dir != "" && filename != "" && SlashFree(filename)
    ensures Denotes(dir + "/" + filename) == Step(Denotes(dir), filename)
  {
    TrailingSlash(dir);
    AppendComponent(dir + "/", filename);
    AppendWalk(Location(IsAbsolute(dir), 0, []), Components(dir), filename);
  }

  /** Appending a path after a slash, or after one added, walks on along it. */
  lemma AppendedDenotes(dir: string, path: string)
    requires dir != ""
    ensures Denotes(dir + "/" + path) == Target(dir, path)
    ensures dir[|dir| - 1] == '/' ==> Denotes(dir + path) == Target(dir, path)
  {
    TrailingSlash(dir);
    AppendPath(dir + "/", path);
    WalkConcat(Location(IsAbsolute(dir), 0, []), Components(dir), Components(path));
    if dir[|dir| - 1] == '/' {
      AppendPath(dir, path);
    }
  }

  lemma DotsDenote(dir: string, filename: string)
    requires dir != "" && (filename == "" || filename == "." || filename == "..")
    ensures Target(dir, filename) == Step(Denotes(dir), filename)
  {
    if filename != "" {
      SingleName(Denotes(dir), filename);
    }
  }

  lemma SingleName(l: Location, c: string)
    requires c != "" && SlashFree(c)
    ensures Walk(l, Components(c)) == Step(l, c)
  {
    AppendComponent("", c);
    assert "" + c == c && Components("") + [c] == [] + [c];
    AppendWalk(l, [], c);
  }

  lemma OneUp()
    ensures Denotes("..") == Location(false, 1, [])
  {
  }

  lemma OneMoreUp(s: string, n: nat)
    requires s != "" && Denotes(s) == Location(false, n, [])
    ensures Denotes(s + "/" + "..") == Location(false, n + 1, [])
  {
    AppendWithSlash(s, "..");
  }

  lemma {:induction false} UpsStringDenotes(n: nat)
    ensures n > 0 ==> UpsString(n) != ""
    ensures Denotes(UpsString(n)) == Location(false, n, [])
  {
    if n == 1 {
      OneUp();
    } else if n > 1 {
      UpsStringDenotes(n - 1);
      OneMoreUp(UpsString(n - 1), n - 1);
    }
  }

  // ----- The outcome of the scan

  /** The string the code builds from where the scan stopped. */
  function Rebuilt(dir0: string, dir: string, npop: nat): string {
    if dir != "" then dir else if IsAbsolute(dir0) then "/" else UpsString(npop)
  }

  lemma AbsoluteOutcome(dir0: string, npop: nat)
    requires IsAbsolute(dir0) && Scanned(dir0, "", npop)
    ensures Denotes("/") == Up(Denotes(dir0))
  {
    TargetFromPrefix(dir0, "", npop);
    UpNRoot(npop);
    TrimSlashes("/", 0);
  }

  lemma StoppedOutcome(dir0: string, dir: string)
    requires dir0 != "" && dir != "" && Scanned(dir0, dir, 0) && Components(dir) != []
    ensures Denotes(dir) == Up(Denotes(dir0)) && Resolvable(dir0, "..")
  {
    TargetFromPrefix(dir0, dir, 0);
    ResidueAfterFirst(dir0, dir, 0);
  }

  lemma SingleComponent(first: string)
    requires first != "" && SlashFree(first)
    ensures Components(first) == [first] && Walk(HERE, [first]) == Step(HERE, first)
  {
  }

  lemma FirstComponentTarget(dir0: string, first: string, npop: nat)
    requires dir0 != "" && !IsAbsolute(dir0) && first != "" && SlashFree(first) && npop > 0
    requires Scanned(dir0, first, npop)
    ensures Up(Denotes(dir0)) == UpN(Step(HERE, first), npop)
    ensures Resolvable(dir0, "..") <==> FirstComponentHandled(first)
  {
    SingleComponent(first);
    TargetFromPrefix(dir0, first, npop);
    ResidueAfterFirst(dir0, first, npop);
  }

  lemma UpsAboveFirst(first: string, npop: nat)
    requires first != "" && npop > 0
    ensures UpN(Step(HERE, first), npop) ==
            Location(false, if first == "." then npop else if first == ".." then npop + 1 else npop - 1, [])
  {
    if first == "." {
      UpNHere(npop);
    } else if first == ".." {
      UpNUp(HERE, npop);
      UpNHere(npop + 1);
    } else {
      assert HERE.names + [first] == [first];
      UpNName(first, npop);
    }
  }

  /** The scan ran into the first component of a relative path, which the code does not inspect. */
  lemma FirstComponentOutcome(dir0: string, first: string, npop: nat)
    requires dir0 != "" && !IsAbsolute(dir0) && first != "" && SlashFree(first) && npop > 0
    requires Scanned(dir0, first, npop)
    ensures var left := if |first| == 1 then npop else npop - 1;
            Denotes(UpsString(left)) == Up(Denotes(dir0)) <==> Resolvable(dir0, "..")
  {
    FirstComponentTarget(dir0, first, npop);
    UpsAboveFirst(first, npop);
    UpsStringDenotes(if |first| == 1 then npop else npop - 1);
  }

  // ----- The code

  /** std::string::find_last_of('/'), -1 for npos. */
  method FindLastSlash(s: string) returns (k: int)
    ensures -1 <= k < |s|
    ensures k >= 0 ==> s[k] == '/'
    ensures forall x :: k < x < |s| ==> s[x] != '/'
  {
    k := |s| - 1;
    while k >= 0 && s[k] != '/'
      invariant -1 <= k < |s|
      invariant forall x :: k < x < |s| ==> s[x] != '/'
    {
      k := k - 1;
    }
  }

  /** One more than the index of the last character at or after `floor` that is not a slash. */
  method TrimmedLength(s: string, floor: nat, len: nat) returns (n: nat)
    requires floor <= len <= |s|
    ensures floor <= n <= len
    ensures forall x :: n <= x < len ==> s[x] == '/'
    ensures n > floor ==> s[n - 1] != '/'
  {
    n := len;
    while n > floor && s[n - 1] == '/'
      invariant floor <= n <= len
      invariant forall x :: n <= x < len ==> s[x] == '/'
    {
      n := n - 1;
    }
  }

  /** Trailing slashes removed, the first character always kept. */
  lemma TrimmedScan(dir0: string, dir: string, n: nat, npop: nat)
    requires Scanned(dir0, dir, npop) && 1 <= n <= |dir|
    requires forall x :: n <= x < |dir| ==> dir[x] == '/'
    ensures Scanned(dir0, dir[..n], npop)
  {
    TrimSlashes(dir, n);
  }

  /** The path up to the slash before its last component, further slashes removed. */
  lemma CutLast(dir: string, slash: nat, n: nat)
    requires n <= slash < |dir| - 1 && dir[slash] == '/' && SlashFree(dir[slash + 1..])
    requires forall x :: n <= x < slash ==> dir[x] == '/'
    ensures Components(dir) == Components(dir[..n]) + [dir[slash + 1..]]
  {
    LastStartUnique(dir, slash + 1);
    SplitLast(dir);
    TrimSlashes(dir[..slash + 1], n);
    assert dir[..slash + 1][..n] == dir[..n];
  }

  predicate EndsInName(dir: string) {
    dir != "" && dir[|dir| - 1] != '/' && Components(dir) != []
  }

  /** One turn of the loop: the last component is cut off together with the slashes before it. */
  lemma Turn(dir0: string, dir: string, npop: nat, slash: nat, q: nat, npop': nat)
    requires Scanned(dir0, dir, npop) && npop > 0
    requires q <= slash < |dir| - 1 && dir[slash] == '/' && SlashFree(dir[slash + 1..])
    requires (forall x :: q <= x < slash ==> dir[x] == '/') && (q > 0 ==> dir[q - 1] != '/')
    requires var c := dir[slash + 1..]; npop' == if c == "." then npop else if c == ".." then npop + 1 else npop - 1
    ensures Scanned(dir0, dir[..q], npop')
    ensures if q > 0 then EndsInName(dir[..q]) else IsAbsolute(dir0)
  {
    CutLast(dir, slash, q);
    ScanStep(dir0, dir, npop, dir[..q], dir[slash + 1..], npop');
    if q > 0 {
      SplitLast(dir[..q]);
    }
  }

  /**
    Where the loop can stop: with no pop pending; at the root; or in front of the
    first component of a relative path, which it discards without inspecting it.
  */
  ghost predicate Stopped(dir0: string, dir: string, npop: nat, first: string) {
    if dir != "" then npop == 0 && Scanned(dir0, dir, 0) && EndsInName(dir)
    else if IsAbsolute(dir0) then Scanned(dir0, "", npop)
    else
      && first != "" && SlashFree(first)
      && (|first| == 1 ==> npop > 0)
      && Scanned(dir0, first, if |first| == 1 then npop else npop + 1)
  }

  /** What the code builds there denotes the right place exactly when that is resolvable. */
  lemma StoppedVerdict(dir0: string, dir: string, npop: nat, first: string)
    requires dir0 != "" && Stopped(dir0, dir, npop, first)
    ensures Denotes(Rebuilt(dir0, dir, npop)) == Up(Denotes(dir0)) <==> Resolvable(dir0, "..")
  {
    if dir != "" {
      StoppedOutcome(dir0, dir);
    } else if IsAbsolute(dir0) {
      AbsoluteOutcome(dir0, npop);
    } else {
      FirstDiscarded(dir0, npop, first);
    }
  }

  lemma FirstDiscarded(dir0: string, npop: nat, first: string)
    requires dir0 != "" && !IsAbsolute(dir0) && Stopped(dir0, "", npop, first)
    ensures Denotes(UpsString(npop)) == Up(Denotes(dir0)) <==> Resolvable(dir0, "..")
  {
    FirstComponentOutcome(dir0, first, if |first| == 1 then npop else npop + 1);
  }

  lemma OneCharacterLeft(dir0: string, dir: string, npop: nat)
    requires dir0 != "" && |dir| == 1 && npop > 0 && Scanned(dir0, dir, npop)
    ensures Stopped(dir0, "", npop, dir)
  {
  }

  /** The loop of the ".." branch: what is left of the directory, and of the pops. */
  method ScanBack(dir0: string) returns (dir: string, npop: nat, ghost first: string)
    requires dir0 != ""
    ensures Stopped(dir0, dir, npop, first) && dir <= dir0
  {
    dir, npop, first := dir0, 1, "";
    ScanStart(dir0);
    while npop > 0
      invariant dir != "" && Scanned(dir0, dir, npop)
      invariant npop == 0 ==> EndsInName(dir)
      decreases |dir|
    {
      var p := TrimmedLength(dir, 1, |dir|);
      TrimmedScan(dir0, dir, p, npop);
      dir := dir[..p];
      if p == 1 {
        OneCharacterLeft(dir0, dir, npop);
        return "", npop, dir;
      }
      var slash := FindLastSlash(dir);
      if slash == -1 {
        return "", npop - 1, dir;
      }
      var c := dir[slash + 1..];
      var npop' := if c == "." then npop else if c == ".." then npop + 1 else npop - 1;
      var q := TrimmedLength(dir, 0, slash);
      Turn(dir0, dir, npop, slash, q, npop');
      npop, dir := npop', dir[..q];
      if dir == "" {
        return;
      }
    }
  }

  /** The string built from where the loop stopped. */
  ghost predicate RebuiltFrom(dir0: string, r: string) {
    exists dir: string, npop: nat, first: string ::
      Stopped(dir0, dir, npop, first) && dir <= dir0 && r == Rebuilt(dir0, dir, npop)
  }

  /** The branch of AppendFileName that appends "..". */
  method AppendDotDot(dir0: string) returns (r: string)
    requires dir0 != ""
    ensures Denotes(r) == Up(Denotes(dir0)) <==> Resolvable(dir0, "..")
    ensures IsAbsolute(dir0) ==> IsAbsolute(r)
    ensures RebuiltFrom(dir0, r) && (r == "" || r == "/" || r[|r| - 1] != '/')
  {
    var dir, npop, first := ScanBack(dir0);
    StoppedVerdict(dir0, dir, npop, first);
    r := Rebuild(IsAbsolute(dir0), dir, npop);
    assert r == Rebuilt(dir0, dir, npop) && Stopped(dir0, dir, npop, first);
  }

  /** After the loop: an empty directory becomes the root or the pops that are left. */
  method Rebuild(isAbs: bool, dir: string, npop: nat) returns (r: string)
    ensures r == if dir != "" then dir else if isAbs then "/" else UpsString(npop)
  {
    r := dir;
    if r == "" {
      if isAbs {
        r := r + "/";
      } else if npop > 0 {
        r := r + "..";
        for i := 1 to npop
          invariant r == UpsString(i)
        {
          assert r + "/.." == r + "/" + "..";
          r := r + "/..";
        }
      }
    }
  }

  /** The branches that append a name, after a slash. */
  method AppendName(dir: string, filename: string) returns (r: string)
    requires dir != ""
    ensures r == (if dir[|dir| - 1] == '/' then dir else dir + "/") + filename
    ensures Denotes(r) == Target(dir, filename)
  {
    AppendedDenotes(dir, filename);
    r := dir;
    if r[|r| - 1] != '/' {
      r := r + "/";
    }
    r := r + filename;
  }

  /**
    AppendFileName. The result denotes where directory and file name lead together
    exactly when Resolvable holds; in particular for every absolute directory.
  */
  method AppendFileName(dir: string, filename: string) returns (r: string)
    ensures Denotes(r) == Target(dir, filename) <==> Resolvable(dir, filename)
    ensures IsAbsolute(dir) ==> Resolvable(dir, filename) && IsAbsolute(r)
    ensures dir == "" ==> r == filename
    ensures dir != "" && (filename == "" || filename == ".") ==> r == dir
    ensures dir != "" && filename == ".." ==> RebuiltFrom(dir, r) && (r == "" || r == "/" || r[|r| - 1] != '/')
    ensures dir != "" && filename != "" && filename != "." && filename != ".." ==>
              r == (if dir[|dir| - 1] == '/' then dir else dir + "/") + filename
  {
    if dir == "" {
      return filename;
    }
    var len := |filename|;
    r := dir;
    if len >= 3 || (len == 1 && filename[0] != '.') || (len == 2 && (filename[0] != '.' || filename[1] != '.')) {
      r := AppendName(dir, filename);
    } else {
      DotsDenote(dir, filename);
      if len == 2 {
        r := AppendDotDot(dir);
      }
    }
  }

  // ----- Consequences

  /** Going down to a name and then up again is always resolved, and leads back. */
  lemma NameThenParent(dir: string, name: string)
    requires dir != "" && SlashFree(name) && name != "" && name != "." && name != ".."
    ensures Resolvable(dir + "/" + name, "..")
    ensures Up(Denotes(dir + "/" + name)) == Denotes(dir)
  {
    var cs := Components(dir);
    AppendWithSlash(dir, name);
    TrailingSlash(dir);
    AppendComponent(dir + "/", name);
    if !IsAbsolute(dir) && cs != [] {
      assert (cs + [name])[1..] == cs[1..] + [name];
      AppendWalk(HERE, cs[1..], name);
    } else if !IsAbsolute(dir) {
      RelativeHasComponents(dir);
    }
  }

  lemma {:induction false} RelativeHasComponents(dir: string)
    requires dir != "" && !IsAbsolute(dir)
    ensures Components(dir) != []
  {
    if dir[|dir| - 1] == '/' {
      RelativeHasComponents(dir[..|dir| - 1]);
    }
  }

  /** Nothing is left to scan of a relative path of one component but that component. */
  lemma OneComponentStopped(c: string, dir: string, npop: nat, first: string)
    requires c != "" && SlashFree(c) && Stopped(c, dir, npop, first)
    ensures dir == "" && npop == if |c| == 1 then 1 else 0
  {
    if dir != "" {
      WholeComponent(c, dir, 0);
    } else {
      WholeComponent(c, first, if |first| == 1 then npop else npop + 1);
    }
  }

  lemma UpsStringSmall(n: nat)
    requires n <= 1
    ensures UpsString(n) == if n == 1 then ".." else ""
  {
  }

  lemma OneComponent(c: string, r: string)
    requires c != "" && SlashFree(c) && RebuiltFrom(c, r)
    ensures r == if |c| == 1 then ".." else ""
  {
    var dir: string, npop: nat, first: string :| Stopped(c, dir, npop, first) && dir <= c && r == Rebuilt(c, dir, npop);
    OneComponentStopped(c, dir, npop, first);
    UpsStringSmall(npop);
  }

  lemma WholeComponent(c: string, dir: string, npop: nat)
    requires c != "" && SlashFree(c) && dir != "" && Scanned(c, dir, npop)
    ensures dir == c && npop == 1
  {
    SingleComponent(c);
    SingleComponent(dir);
    assert [c][1..] == [];
    assert Components(c)[|Components(dir)|..] == [];
  }

  lemma OnlyFirst(c: string)
    requires c != "" && SlashFree(c)
    ensures Resolvable(c, "..") <==> FirstComponentHandled(c)
  {
    SingleComponent(c);
    assert [c][1..] == [];
  }

  /**
    Going up from a relative path of one component: the result is ".." if that
    component has one character and empty otherwise, whatever the component is.
  */
  method UpFromOne(c: string) returns (r: string)
    requires c != "" && SlashFree(c)
    ensures r == if |c| == 1 then ".." else ""
    ensures Denotes(r) == Target(c, "..") <==> c == "." || (|c| >= 2 && c != "..")
  {
    r := AppendFileName(c, "..");
    OneComponent(c, r);
    OnlyFirst(c);
  }

  method StringFromOne(c: string) returns (r: string)
    requires c != "" && SlashFree(c)
    ensures r == if |c| == 1 then ".." else ""
  {
    r := UpFromOne(c);
  }

  /**
    The documented rule "foo/" + ".." -> "" fails for a one-letter directory, which
    gives ".." instead, and ".." is lost after "..", which gives the empty string.
  */
  method DocumentedRuleFails() returns (fromLetter: string, fromParent: string, fromFoo: string)
    ensures fromLetter == ".." && !Resolvable("a", "..")
    ensures fromParent == "" && !Resolvable("..", "..")
    ensures fromFoo == "" && Resolvable("foo", "..")
  {
    fromLetter := StringFromOne("a");
    fromParent := StringFromOne("..");
    fromFoo := StringFromOne("foo");
    DocumentedInputs();
  }

  lemma DocumentedInputs()
    ensures !Resolvable("a", "..") && !Resolvable("..", "..") && Resolvable("foo", "..")
  {
  }
}
