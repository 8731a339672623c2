/** Paths (src/readwrite.rs:332-377, 859-885): components, and the split into parent directory and file name. */
module Path {
  import opened Bytes
  import opened Wrappers
  import opened Directory

  const SLASH: byte := 0x2F

  function FirstSlash(p: seq<byte>): (r: Option<nat>)
    ensures r.Some? ==> r.value < |p| && p[r.value] == SLASH && SLASH !in p[..r.value]
    ensures r == None <==> SLASH !in p
  {
    if p == [] then None
    else if p[0] == SLASH then Some(0)
    else
      match FirstSlash(p[1..])
      case None => assert p == [p[0]] + p[1..]; None
      case Some(k) => assert p[..k + 1] == [p[0]] + p[1..][..k]; Some(k + 1)
  }

  function LastSlash(p: seq<byte>): (r: Option<nat>)
    ensures r.Some? ==> r.value < |p| && p[r.value] == SLASH && SLASH !in p[r.value + 1..]
    ensures r == None <==> SLASH !in p
  {
    if p == [] then None
    else if p[|p| - 1] == SLASH then Some(|p| - 1)
    else
      match LastSlash(p[..|p| - 1])
      case None => assert p == p[..|p| - 1] + [p[|p| - 1]]; None
      case Some(k) => assert p[k + 1..] == p[..|p| - 1][k + 1..] + [p[|p| - 1]]; Some(k)
  }

  /** `split` at slashes, empty pieces dropped. */
  function Components(p: seq<byte>): seq<seq<byte>> {
    match FirstSlash(p)
    case None => if p == [] then [] else [p]
    case Some(k) => (if k == 0 then [] else [p[..k]]) + Components(p[k + 1..])
  }

  /** Parent path and file name: what is before and after the last slash. */
  function SplitPath(path: seq<byte>): Result<(seq<byte>, seq<byte>)> {
    if path == [] || path[0] != SLASH then Err(InvalidPath)
    else
      var last := LastSlash(path).value;
      var filename := path[last + 1..];
      if filename == [] then Err(InvalidPath)
      else if |filename| > EXT4_NAME_LEN then Err(NameTooLong)
      else Ok((if last == 0 then path[..1] else path[..last], filename))
  }

  lemma {:induction false} ComponentsAfterSlash(a: seq<byte>, b: seq<byte>)
    requires SLASH !in b
    ensures Components(a + [SLASH] + b) == Components(a) + if b == [] then [] else [b]
    decreases |a|
  {
    hide FirstSlash;
    var p := a + [SLASH] + b;
    match FirstSlash(a)
    case None =>
      FirstSlashIs(p, |a|);
      assert p[|a| + 1..] == b && p[..|a|] == a;
    case Some(k) =>
      assert p[..k] == a[..k];
      FirstSlashIs(p, k);
      assert p[k + 1..] == a[k + 1..] + [SLASH] + b;
      ComponentsAfterSlash(a[k + 1..], b);
  }

  /** The names, each behind a slash. */
  function Joined(names: seq<seq<byte>>): seq<byte> {
    if names == [] then [] else Joined(names[..|names| - 1]) + [SLASH] + names[|names| - 1]
  }

  /** A name that a path can have as one of its components. */
  predicate IsName(name: seq<byte>) { name != [] && SLASH !in name }

  /** The components of names joined by slashes are the names. */
  lemma {:induction false} JoinRoundTrip(names: seq<seq<byte>>)
    requires forall k :: 0 <= k < |names| ==> IsName(names[k])
    ensures Components(Joined(names)) == names
    decreases |names|
  {
    hide Components;
    NoSlash([]);
    if names != [] {
      var last := |names| - 1;
      JoinRoundTrip(names[..last]);
      assert IsName(names[last]);
      ComponentsAfterSlash(Joined(names[..last]), names[last]);
    }
  }

  /** Without a slash there is one component, or none. */
  lemma NoSlash(p: seq<byte>)
    requires SLASH !in p
    ensures Components(p) == if p == [] then [] else [p]
  {
  }

  /** Components are never empty and hold no slash. */
  lemma {:induction false} ComponentsAreNames(p: seq<byte>)
    ensures forall k :: 0 <= k < |Components(p)| ==> IsName(Components(p)[k])
    decreases |p|
  {
    hide FirstSlash;
    match FirstSlash(p)
    case None =>
    case Some(k) => ComponentsAreNames(p[k + 1..]);
  }

  /** What a path splits into, by its last slash. */
  lemma SplitPathIs(a: seq<byte>, b: seq<byte>)
    requires SLASH !in b && (a == [] || a[0] == SLASH)
    ensures SplitPath(a + [SLASH] + b)
      == if b == [] then Err(InvalidPath)
      else if |b| > 255 then Err(NameTooLong) else Ok((if a == [] then [SLASH] else a, b))
  {
    var p := a + [SLASH] + b;
    assert p[|a| + 1..] == b && p[..|a|] == a && (a == [] ==> p[..1] == [SLASH]);
    LastSlashIs(p, |a|);
  }

  lemma LastSlashIs(p: seq<byte>, k: nat)
    requires k < |p| && p[k] == SLASH && SLASH !in p[k + 1..]
    ensures LastSlash(p) == Some(k)
  {
    var j := LastSlash(p).value;
    forall i | k < i < |p| ensures p[i] != SLASH { assert p[i] == p[k + 1..][i - k - 1]; }
    forall i | j < i < |p| ensures p[i] != SLASH { assert p[i] == p[j + 1..][i - j - 1]; }
  }

  /** A path that does not start with a slash does not split. */
  lemma MustStartWithSlash(path: seq<byte>)
    requires path == [] || path[0] != SLASH
    ensures SplitPath(path) == Err(InvalidPath)
  {
  }

  lemma FirstSlashIs(p: seq<byte>, k: nat)
    requires k < |p| && p[k] == SLASH && SLASH !in p[..k]
    ensures FirstSlash(p) == Some(k)
  {
    var j := FirstSlash(p).value;
    forall i | 0 <= i < k ensures p[i] != SLASH { assert p[i] == p[..k][i]; }
    forall i | 0 <= i < j ensures p[i] != SLASH { assert p[i] == p[..j][i]; }
  }

  /** When a path splits, its components are those of the parent followed by the file name. */
  lemma SplitKeepsComponents(path: seq<byte>)
    requires SplitPath(path).Ok?
    ensures var (parent, name) := SplitPath(path).value;
      && |parent| > 0 && parent[0] == SLASH && 0 < |name| <= EXT4_NAME_LEN && SLASH !in name
      && Components(path[1..]) == Components(parent[1..]) + [name]
  {
    var last := LastSlash(path).value;
    var name := path[last + 1..];
    if last == 0 {
      assert path[1..] == name && path[..1][1..] == [];
    } else {
      assert path[1..] == path[..last][1..] + [SLASH] + name;
      ComponentsAfterSlash(path[..last][1..], name);
    }
  }
}
