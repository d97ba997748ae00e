/**
 Where an archive entry may be written: safeJoin, with the lexical cleaning of
 path.Clean on relative names. Paths are sequences of components.
 */
module SafeNames {
  import opened Wrappers
  import opened DiskTree

  /******* path.Clean *******/

  /** The components between the slashes. */
  function Components(name: string): (r: seq<string>)
    ensures |r| > 0
  {
    var i := IndexOfSlash(name);
    if i == |name| then [name] else [name[..i]] + Components(name[i + 1..])
  }

  function IndexOfSlash(name: string): (i: nat)
    ensures i <= |name|
    ensures i < |name| ==> name[i] == '/'
    ensures forall k | 0 <= k < i :: name[k] != '/'
  {
    if name == [] || name[0] == '/' then 0 else 1 + IndexOfSlash(name[1..])
  }

  /** One component more: empty ones and dots change nothing, two dots take back
      the component before, and stay where there is none to take back. */
  function CleanOne(cleaned: Path, c: string): Path {
    if c == "" || c == "." then cleaned
    else if c == ".." && cleaned != [] && cleaned[|cleaned| - 1] != ".." then cleaned[..|cleaned| - 1]
    else cleaned + [c]
  }

  function Clean(components: seq<string>): Path {
    if components == [] then []
    else CleanOne(Clean(components[..|components| - 1]), components[|components| - 1])
  }

  /******* safeJoin *******/

  predicate Escapes(cleaned: Path) {
    cleaned != [] && cleaned[0] == ".."
  }

  /** The components below the destination, or None for ErrUnsafeArchiveEntry. The last
      test is the one for the destination as a prefix: it also refuses the destination itself. */
  function SafeName(name: string): Option<Path> {
    if name == "" || '\0' in name then None
    else if name[0] == '/' then None
    else
      var cleaned := Clean(Components(name));
      if Escapes(cleaned) then None
      else if cleaned == [] then None
      else Some(cleaned)
  }

  function SafeJoin(destination: Path, name: string): Option<Path> {
    if SafeName(name).Some? then Some(destination + SafeName(name).value) else None
  }

  /******* What a name means *******/

  /** How far below the start the first i components lead, taken one by one. */
  function Depth(components: seq<string>, i: nat): int
    requires i <= |components|
  {
    if i == 0 then 0
    else Depth(components, i - 1) + Weight(components[i - 1])
  }

  function Weight(c: string): int {
    if c == "" || c == "." then 0 else if c == ".." then -1 else 1
  }

  /** Going along the name never leads above the start. */
  ghost predicate StaysInside(components: seq<string>) {
    forall i | 0 <= i <= |components| :: Depth(components, i) >= 0
  }

  predicate IsPlain(c: string) {
    c != "" && c != "." && c != ".."
  }

  lemma {:induction false} DepthOfFront(components: seq<string>, n: nat, i: nat)
    requires i <= n <= |components|
    ensures Depth(components[..n], i) == Depth(components, i)
  {
    if i > 0 {
      DepthOfFront(components, n, i - 1);
    }
  }

  /** Cleaning keeps plain components only, as many as the name is deep, unless the
      name leads above its start somewhere; then it begins with two dots. */
  lemma {:induction false} CleanIsDepth(components: seq<string>)
    ensures !Escapes(Clean(components)) <==> StaysInside(components)
    ensures StaysInside(components) ==> |Clean(components)| == Depth(components, |components|)
    ensures StaysInside(components) ==> forall c | c in Clean(components) :: IsPlain(c)
  {
    if components != [] {
      var n := |components| - 1;
      var front := components[..n];
      CleanIsDepth(front);
      forall i | 0 <= i <= n ensures Depth(front, i) == Depth(components, i) {
        DepthOfFront(components, n, i);
      }
      StaysOneMore(components);
      var before := Clean(front);
      if StaysInside(front) {
        PlainStep(before, components[n]);
        assert Depth(components, n + 1) == |before| + Weight(components[n]);
      } else {
        StillEscapes(before, components[n]);
      }
    }
  }

  lemma StaysOneMore(components: seq<string>)
    requires components != []
    ensures var n := |components| - 1;
      StaysInside(components) <==> StaysInside(components[..n]) && Depth(components, n + 1) >= 0
  {
    var n := |components| - 1;
    var front := components[..n];
    forall i | 0 <= i <= n ensures Depth(front, i) == Depth(components, i) {
      DepthOfFront(components, n, i);
    }
    if StaysInside(components) {
      forall i | 0 <= i <= n ensures Depth(front, i) >= 0 {
        assert Depth(components, i) >= 0;
      }
    }
    if StaysInside(front) && Depth(components, n + 1) >= 0 {
      forall i | 0 <= i <= |components| ensures Depth(components, i) >= 0 {
        if i <= n { assert Depth(front, i) >= 0; }
      }
    }
  }

  /** One component more on a plain path: it climbs out exactly if there is nothing to take back. */
  lemma PlainStep(cleaned: Path, c: string)
    requires forall d | d in cleaned :: IsPlain(d)
    ensures Escapes(CleanOne(cleaned, c)) <==> |cleaned| + Weight(c) < 0
    ensures |cleaned| + Weight(c) >= 0 ==> |CleanOne(cleaned, c)| == |cleaned| + Weight(c)
    ensures |cleaned| + Weight(c) >= 0 ==> forall d | d in CleanOne(cleaned, c) :: IsPlain(d)
  {
    if cleaned != [] {
      assert cleaned[0] in cleaned && cleaned[|cleaned| - 1] in cleaned;
    }
  }

  lemma StillEscapes(cleaned: Path, c: string)
    requires Escapes(cleaned)
    ensures Escapes(CleanOne(cleaned, c))
  {
  }

  /** Cleaning what is clean changes nothing. */
  lemma {:induction false} CleanAgain(cleaned: Path)
    requires forall c | c in cleaned :: IsPlain(c)
    ensures Clean(cleaned) == cleaned
  {
    if cleaned != [] {
      var front, last := cleaned[..|cleaned| - 1], cleaned[|cleaned| - 1];
      assert last in cleaned && IsPlain(last);
      CleanAgain(front);
      assert CleanOne(front, last) == front + [last];
    }
  }

  lemma {:induction false} ComponentsHaveNoSlash(name: string)
    ensures forall c | c in Components(name) :: '/' !in c && (forall x | x in c :: x in name)
  {
    var i := IndexOfSlash(name);
    if i < |name| {
      ComponentsHaveNoSlash(name[i + 1..]);
    }
  }

  lemma {:induction false} CleanTakesFrom(components: seq<string>)
    ensures forall c | c in Clean(components) :: c in components
  {
    if components != [] {
      var front := components[..|components| - 1];
      CleanTakesFrom(front);
      forall c | c in Clean(components) ensures c in components {
        assert c in Clean(front) || c == components[|components| - 1];
      }
    }
  }

  /** Every target lies strictly below the destination, along ordinary names. */
  lemma TargetsAreInside(destination: Path, name: string)
    requires SafeJoin(destination, name).Some?
    ensures var target := SafeJoin(destination, name).value;
      && destination < target
      && forall c | c in target[|destination|..] :: IsPlain(c) && '/' !in c && '\0' !in c
  {
    var components := Components(name);
    var cleaned := Clean(components);
    CleanIsDepth(components);
    CleanTakesFrom(components);
    ComponentsHaveNoSlash(name);
    assert (destination + cleaned)[|destination|..] == cleaned;
  }

  /** A name is accepted exactly if it is relative, has no NUL, never climbs above
      the destination on its way, and ends below it. */
  lemma AcceptedNames(destination: Path, name: string)
    ensures SafeJoin(destination, name).Some? <==>
      && name != "" && '\0' !in name && name[0] != '/'
      && StaysInside(Components(name))
      && Depth(Components(name), |Components(name)|) > 0
  {
    CleanIsDepth(Components(name));
  }

  /** Each name stands for one target, and a target for itself: its own components
      lead to it again. */
  lemma TargetIsClean(destination: Path, name: string)
    requires SafeJoin(destination, name).Some?
    ensures Clean(SafeJoin(destination, name).value[|destination|..]) == SafeJoin(destination, name).value[|destination|..]
  {
    TargetsAreInside(destination, name);
    CleanAgain(SafeJoin(destination, name).value[|destination|..]);
  }

  /** No name leads to the destination itself: one that cleans to nothing is refused, so
      the branch that would ignore an entry for the root of the archive is idle. */
  lemma RootEntryIsRefused(destination: Path, name: string)
    ensures SafeJoin(destination, name) != Some(destination)
    ensures Clean(Components(name)) == [] ==> SafeJoin(destination, name) == None
  {
    if SafeJoin(destination, name).Some? {
      TargetsAreInside(destination, name);
    }
  }

  lemma DotIsTheRoot()
    ensures Clean(Components("./")) == [] && SafeName("./") == None
  {
    var name := "./";
    AcceptedNames([], name);
    assert name[1..] == "/" && name[..1] == "." && name[2..] == "";
    assert Components(name) == [".", ""];
    assert Depth(Components(name), 1) == 0;
    CleanIsDepth(Components(name));
  }

  /******* Names below a directory *******/

  lemma {:induction false} ComponentsBelow(w: string, name: string)
    requires '/' !in w
    ensures Components(w + "/" + name) == [w] + Components(name)
  {
    var whole := w + "/" + name;
    SlashBehind(w, name);
    assert whole[..|w|] == w && whole[|w| + 1..] == name;
  }

  lemma {:induction false} SlashBehind(w: string, name: string)
    requires '/' !in w
    ensures IndexOfSlash(w + "/" + name) == |w|
  {
    if w == [] {
      assert (w + "/" + name)[0] == '/';
    } else {
      assert w[0] in w && forall c | c in w[1..] :: c in w;
      SlashBehind(w[1..], name);
      assert (w + "/" + name)[1..] == w[1..] + "/" + name;
    }
  }

  /** A name that stays inside is cleaned alike below a directory. */
  lemma {:induction false} CleanBelow(w: string, components: seq<string>)
    requires IsPlain(w) && StaysInside(components)
    ensures Clean([w] + components) == [w] + Clean(components)
  {
    if components == [] {
      assert [w] + components == [w] && [w][..0] == [];
      assert Clean([w]) == CleanOne(Clean([]), w);
    } else {
      var n := |components| - 1;
      var front := components[..n];
      StaysOneMore(components);
      CleanBelow(w, front);
      CleanIsDepth(front);
      assert ([w] + components)[..n + 1] == [w] + front;
      OneBelow(w, Clean(front), components[n]);
      DepthOfFront(components, n, n);
      assert Depth(components, n + 1) == |Clean(front)| + Weight(components[n]);
    }
  }

  lemma OneBelow(w: string, cleaned: Path, c: string)
    requires IsPlain(w) && (forall d | d in cleaned :: IsPlain(d))
    ensures |cleaned| + Weight(c) >= 0 ==> CleanOne([w] + cleaned, c) == [w] + CleanOne(cleaned, c)
  {
    if cleaned != [] {
      assert cleaned[|cleaned| - 1] in cleaned;
      assert ([w] + cleaned)[..|cleaned|] == [w] + cleaned[..|cleaned| - 1];
    }
  }

  /** The names of an archive that is wrapped in a directory. */
  lemma SafeBelow(w: string, name: string)
    requires IsPlain(w) && '/' !in w && '\0' !in w && SafeName(name).Some?
    ensures SafeName(w + "/" + name) == Some([w] + SafeName(name).value)
  {
    AcceptedNames([], name);
    ComponentsBelow(w, name);
    CleanBelow(w, Components(name));
    var whole := w + "/" + name;
    assert whole[0] == w[0] && w[0] in w;
    forall c | c in whole ensures c != '\0' {
      assert c in w || c == '/' || c in name;
    }
  }

  lemma SafeDirectory(w: string)
    requires IsPlain(w) && '/' !in w && '\0' !in w
    ensures SafeName(w + "/") == Some([w])
  {
    ComponentsBelow(w, "");
    assert w + "/" + "" == w + "/" && Components("") == [""];
    assert [w, ""][..1] == [w] && [w][..0] == [];
    assert Clean([w]) == CleanOne(Clean([]), w) == [w];
    assert Clean([w, ""]) == CleanOne(Clean([w]), "");
    var whole := w + "/";
    assert whole[0] == w[0] && w[0] in w;
  }
}
