/** The file names the WebTransport interop endpoint accepts. */
module InteropPath {
  import opened Bytes

  /** XQC_WT_INTEROP_PATH_MAX */
  const PATH_MAX: nat := 1024
  const PART_MAX: nat := 255

  const DOT: byte := 46

  predicate PathChar(b: byte) {
    97 <= b <= 122 || 65 <= b <= 90 || 48 <= b <= 57 || b == DOT || b == 95 || b == 45
  }

  predicate GoodPart(part: bytes) {
    && 1 <= |part| <= PART_MAX && part != [DOT] && part != [DOT, DOT]
    && forall i :: 0 <= i < |part| ==> PathChar(part[i])
  }

  predicate AllGood(parts: seq<bytes>) {
    forall i :: 0 <= i < |parts| ==> GoodPart(parts[i])
  }

  function Join(parts: seq<bytes>): bytes {
    if parts == [] then []
    else if |parts| == 1 then parts[0]
    else parts[0] + [SLASH] + Join(parts[1..])
  }

  /** At most 1024 bytes, made of one or more good components with a slash between any two. */
  ghost predicate Legal(path: bytes) {
    |path| <= PATH_MAX && exists parts: seq<bytes> :: parts != [] && AllGood(parts) && Join(parts) == path
  }

  /** There cannot be files of both names: they are the same, or one is a directory of the other. */
  predicate Clash(a: bytes, b: bytes) {
    a == b || a + [SLASH] <= b || b + [SLASH] <= a
  }

  predicate Clashes(names: set<bytes>, name: bytes) {
    exists other :: other in names && Clash(other, name)
  }

  // ------------------------------------------------------ there is one way to split

  function FirstSlash(path: bytes): (k: nat)
    ensures k <= |path| && (k < |path| ==> path[k] == SLASH)
    ensures forall i :: 0 <= i < k ==> path[i] != SLASH
  {
    if path == [] || path[0] == SLASH then 0 else 1 + FirstSlash(path[1..])
  }

  function Parts(path: bytes): (parts: seq<bytes>)
    ensures parts != []
    decreases |path|
  {
    var k := FirstSlash(path);
    if k == |path| then [path] else [path[..k]] + Parts(path[k + 1..])
  }

  lemma PartsAt(path: bytes, k: nat)
    requires k < |path| && path[k] == SLASH && forall i :: 0 <= i < k ==> path[i] != SLASH
    ensures Parts(path) == [path[..k]] + Parts(path[k + 1..])
  {
    assert FirstSlash(path) == k;
  }

  lemma JoinMore(part: bytes, parts: seq<bytes>)
    requires parts != []
    ensures Join([part] + parts) == part + [SLASH] + Join(parts)
  {
    assert ([part] + parts)[1..] == parts;
  }

  lemma {:induction false} JoinParts(path: bytes)
    ensures Join(Parts(path)) == path
    decreases |path|
  {
    var k := FirstSlash(path);
    if k < |path| {
      JoinParts(path[k + 1..]);
      JoinMore(path[..k], Parts(path[k + 1..]));
      assert path[..k] + [SLASH] + path[k + 1..] == path;
    }
  }

  lemma {:induction false} PartsJoin(parts: seq<bytes>)
    requires parts != [] && AllGood(parts)
    ensures Parts(Join(parts)) == parts
  {
    if |parts| == 1 {
      assert FirstSlash(parts[0]) == |parts[0]|;
    } else {
      hide Parts;
      var first, rest := parts[0], Join(parts[1..]);
      var path := first + [SLASH] + rest;
      PartsJoin(parts[1..]);
      assert GoodPart(first);
      PartsAt(path, |first|);
      assert path[..|first|] == first && path[|first| + 1..] == rest;
      assert parts == [first] + parts[1..];
    }
  }

  lemma LegalParts(path: bytes)
    ensures Legal(path) <==> |path| <= PATH_MAX && AllGood(Parts(path))
  {
    JoinParts(path);
    if Legal(path) {
      var parts: seq<bytes> :| parts != [] && AllGood(parts) && Join(parts) == path;
      PartsJoin(parts);
    }
  }

  // ------------------------------------------------------------------ the check itself

  /** A slash at p ends the component that starts at start. */
  lemma PartEnds(path: bytes, start: nat, p: nat)
    requires start <= p < |path| && path[p] == SLASH && SLASH !in path[start..p]
    ensures Parts(path[start..]) == [path[start..p]] + Parts(path[p + 1..])
  {
    hide Parts;
    var s := path[start..];
    assert forall i :: 0 <= i < p - start ==> s[i] == path[start..p][i];
    PartsAt(s, p - start);
    assert s[..p - start] == path[start..p] && s[p - start + 1..] == path[p + 1..];
  }

  /** Any other byte belongs to that component. */
  lemma PartHolds(path: bytes, start: nat, p: nat)
    requires start <= p < |path| && path[p] != SLASH && SLASH !in path[start..p]
    ensures path[p] in Parts(path[start..])[0]
  {
    var s := path[start..];
    assert forall i :: start <= i < p ==> path[i] in path[start..p];
    var k := FirstSlash(s);
    assert k > p - start;
    assert s[..k][p - start] == path[p];
  }

  lemma LastPart(path: bytes, start: nat)
    requires start <= |path| && SLASH !in path[start..]
    ensures Parts(path[start..]) == [path[start..]]
  {
  }

  /** xqc_wt_interop_valid_path */
  method ValidPath(path: CString) returns (ok: bool)
    ensures ok <==> Legal(path)
  {
    hide Parts;
    LegalParts(path);
    if |path| == 0 || |path| > PATH_MAX {
      if |path| == 0 {
        LastPart(path, 0);
        assert !GoodPart(Parts(path)[0]);
      }
      return false;
    }
    var start, p := 0, 0;
    assert path[0..] == path;
    while true
      invariant start <= p <= |path|
      invariant AllGood(Parts(path)) <==> AllGood(Parts(path[start..]))
      invariant forall i :: start <= i < p ==> PathChar(path[i])
      decreases |path| - p
    {
      if p == |path| || path[p] == SLASH {
        var part := path[start..p];
        var good := 1 <= |part| <= PART_MAX && part != [DOT] && part != [DOT, DOT];
        assert good <==> GoodPart(part);
        if p == |path| {
          LastPart(path, start);
          return good;
        }
        PartEnds(path, start, p);
        assert Parts(path[start..])[0] == part && Parts(path[start..])[1..] == Parts(path[p + 1..]);
        if !good {
          return false;
        }
        start := p + 1;
      } else if !PathChar(path[p]) {
        PartHolds(path, start, p);
        assert !GoodPart(Parts(path[start..])[0]);
        return false;
      }
      p := p + 1;
    }
  }
}
