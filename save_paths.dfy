/**
 * The pure string rules the main frame applies to paths: the `.xml`
 * suffix rule of the save handler and `os.path.dirname` (POSIX flavour),
 * which both the open and the save handler use to move the current
 * directory.
 */
module SavePaths {

  const XmlSuffix: string := ".xml"

  /** `sub` starts at index `i` of `s`. */
  predicate OccursAt(s: string, sub: string, i: int)
  {
    0 <= i && i + |sub| <= |s| && s[i..i + |sub|] == sub
  }

  /** Reference definition of Python's `sub in s`: some index starts a copy of `sub`. */
  ghost predicate Occurs(sub: string, s: string)
  {
    exists i :: OccursAt(s, sub, i)
  }

  /** Python's `sub in s`, computed by trying each start position in turn. */
  predicate Contains(s: string, sub: string)
  {
    if |s| < |sub| then false
    else s[..|sub|] == sub || Contains(s[1..], sub)
  }

  /** The scan finds `sub` exactly when `sub` occurs somewhere in `s`. */
  lemma {:induction false} ContainsIffOccurs(s: string, sub: string)
    ensures Contains(s, sub) <==> Occurs(sub, s)
  {
    if |s| < |sub| {
    } else if s[..|sub|] == sub {
      assert OccursAt(s, sub, 0);
    } else {
      ContainsIffOccurs(s[1..], sub);
      forall i | OccursAt(s[1..], sub, i)
        ensures OccursAt(s, sub, i + 1)
      {
        assert s[i + 1..i + 1 + |sub|] == s[1..][i..i + |sub|];
      }
      forall i | 0 < i && OccursAt(s, sub, i)
        ensures OccursAt(s[1..], sub, i - 1)
      {
        assert s[1..][i - 1..i - 1 + |sub|] == s[i..i + |sub|];
      }
    }
  }

  /**
   * The path the save handler writes to: the chosen path, with `.xml`
   * appended when the substring `.xml` occurs nowhere in it.
   */
  function NormalizeSavePath(path: string): (r: string)
    ensures r == if Occurs(XmlSuffix, path) then path else path + XmlSuffix
  {
    ContainsIffOccurs(path, XmlSuffix);
    if Contains(path, XmlSuffix) then path else path + XmlSuffix
  }

  /** Every normalised path contains `.xml`. */
  lemma NormalizedContainsXml(path: string)
    ensures Occurs(XmlSuffix, NormalizeSavePath(path))
  {
    var r := NormalizeSavePath(path);
    if !Occurs(XmlSuffix, path) {
      assert r[|path|..|path| + |XmlSuffix|] == XmlSuffix;
      assert OccursAt(r, XmlSuffix, |path|);
    }
  }

  /** Normalising twice is the same as normalising once. */
  lemma NormalizeIdempotent(path: string)
    ensures NormalizeSavePath(NormalizeSavePath(path)) == NormalizeSavePath(path)
  {
    NormalizedContainsXml(path);
  }

  /** The path is left alone exactly when it already contains `.xml`. */
  lemma NormalizeUnchangedIff(path: string)
    ensures NormalizeSavePath(path) == path <==> Occurs(XmlSuffix, path)
  {
  }

  /** A path that contains `.xml` anywhere, not only at its end, is kept as is. */
  lemma BackupNameKept()
    ensures NormalizeSavePath("a.xml.bak") == "a.xml.bak"
  {
    assert OccursAt("a.xml.bak", XmlSuffix, 1);
  }

  /** Index just past the last `/` of `p`, or 0 when `p` has none (`p.rfind('/') + 1`). */
  function SplitIndex(p: string): (k: nat)
    ensures k <= |p|
    ensures k > 0 ==> p[k - 1] == '/'
    ensures forall j :: k <= j < |p| ==> p[j] != '/'
  {
    if p == [] then 0
    else if p[|p| - 1] == '/' then |p|
    else SplitIndex(p[..|p| - 1])
  }

  predicate AllSlashes(s: string)
  {
    forall j :: 0 <= j < |s| ==> s[j] == '/'
  }

  /** `s.rstrip('/')`: the longest prefix of `s` followed only by slashes, not ending in one. */
  function RStripSlashes(s: string): (r: string)
    ensures |r| <= |s| && r == s[..|r|]
    ensures r == [] || r[|r| - 1] != '/'
    ensures forall j :: |r| <= j < |s| ==> s[j] == '/'
  {
    if s == [] || s[|s| - 1] != '/' then s
    else RStripSlashes(s[..|s| - 1])
  }

  /**
   * `os.path.dirname(p)` on POSIX: everything before the last `/`, with
   * trailing slashes removed unless the head is made only of slashes.
   */
  function Dirname(p: string): (d: string)
    ensures |d| <= |p| && d == p[..|d|]
  {
    var head := p[..SplitIndex(p)];
    if head != [] && !AllSlashes(head) then RStripSlashes(head) else head
  }

  /** Appending text without a slash does not move the last slash. */
  lemma {:induction false} SplitIndexAppend(p: string, s: string)
    requires '/' !in s
    ensures SplitIndex(p + s) == SplitIndex(p)
  {
    if s != [] {
      var t := s[..|s| - 1];
      assert (p + s)[..|p + s| - 1] == p + t;
      assert s[|s| - 1] in s;
      assert forall c :: c in t ==> c in s;
      SplitIndexAppend(p, t);
    } else {
      assert p + s == p;
    }
  }

  /** Appending a file-name suffix (no slash) leaves the directory unchanged. */
  lemma DirnameAppend(p: string, s: string)
    requires '/' !in s
    ensures Dirname(p + s) == Dirname(p)
  {
    SplitIndexAppend(p, s);
    assert (p + s)[..SplitIndex(p)] == p[..SplitIndex(p)];
  }

  /** The save handler's normalisation never changes the directory of the chosen path. */
  lemma DirnameOfNormalized(path: string)
    ensures Dirname(NormalizeSavePath(path)) == Dirname(path)
  {
    if !Occurs(XmlSuffix, path) {
      DirnameAppend(path, XmlSuffix);
    }
  }

  /** The directory of `dir/name` is `dir` when `dir` does not end in a slash. */
  lemma DirnameOfJoin(dir: string, name: string)
    requires dir != [] && dir[|dir| - 1] != '/'
    requires '/' !in name
    ensures Dirname(dir + "/" + name) == dir
  {
    var p := dir + "/";
    SplitIndexAppend(p, name);
    assert SplitIndex(p) == |p|;
    assert (p + name)[..|p|] == p;
    assert p[..|p| - 1] == dir;
    assert !AllSlashes(p) by { assert p[|dir| - 1] != '/'; }
  }
}
