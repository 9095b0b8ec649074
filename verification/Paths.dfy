/**
 The file path pipeline: validation in the API (`api.rs`), percent-encoding in the runtime
 client (`runtime.rs`), percent-decoding by the runtime's router, and resolution inside the
 workspace (`core.py`). Paths are byte strings (UTF-8), workspaces lists of components.
 */
module Paths {
  import opened Common

  const SLASH: Byte := 0x2F
  const PERCENT: Byte := 0x25
  const NUL: Byte := 0

  const CURRENT: Bytes := [0x2E]
  const PARENT: Bytes := [0x2E, 0x2E]

  // ----- Client: trimming and percent-encoding -----

  function TrimSlashes(p: Bytes): (r: Bytes)
    ensures r == [] || r[0] != SLASH
    ensures |r| <= |p| && r == p[|p| - |r|..]
    ensures forall i :: 0 <= i < |p| - |r| ==> p[i] == SLASH
  {
    if p != [] && p[0] == SLASH then TrimSlashes(p[1..]) else p
  }

  /** `CONTROLS` plus the listed characters; bytes outside ASCII are always encoded. */
  predicate MustEncode(b: Byte) {
    || b < 0x20 || b >= 0x7F
    || b == 0x20 || b == 0x22 || b == 0x23 || b == 0x25 || b == 0x2F || b == 0x3C || b == 0x3E
    || b == 0x3F || b == 0x60 || b == 0x7B || b == 0x7D
  }

  function HexDigit(n: nat): (r: Byte)
    requires n < 16
  {
    if n < 10 then 0x30 + n else 0x41 + n - 10
  }

  function PercentEncode(p: Bytes): Bytes {
    if p == [] then []
    else
      (if MustEncode(p[0]) then [PERCENT, HexDigit(p[0] / 16), HexDigit(p[0] % 16)] else [p[0]])
      + PercentEncode(p[1..])
  }

  function EncodedPath(p: Bytes): Bytes {
    PercentEncode(TrimSlashes(p))
  }

  // ----- Server: percent-decoding (section 2.1 of RFC 3986) -----

  /** Both letter cases denote the same digit. */
  function HexValue(b: Byte): (r: Option<nat>)
    ensures r.Some? ==> r.value < 16
  {
    if 0x30 <= b <= 0x39 then Some(b - 0x30)
    else if 0x41 <= b <= 0x46 then Some(b - 0x41 + 10)
    else if 0x61 <= b <= 0x66 then Some(b - 0x61 + 10)
    else None
  }

  /** `None` for a percent sign that is not followed by two hexadecimal digits. */
  function PercentDecode(s: Bytes): Option<Bytes> {
    if s == [] then Some([])
    else if s[0] == PERCENT then
      if |s| < 3 || HexValue(s[1]).None? || HexValue(s[2]).None? then None
      else
        match PercentDecode(s[3..])
        case None => None
        case Some(rest) => Some([HexValue(s[1]).value * 16 + HexValue(s[2]).value] + rest)
    else
      match PercentDecode(s[1..])
      case None => None
      case Some(rest) => Some([s[0]] + rest)
  }

  lemma {:induction false} PercentRoundTrip(p: Bytes)
    ensures PercentDecode(PercentEncode(p)) == Some(p)
  {
    if p != [] {
      PercentRoundTrip(p[1..]);
      var rest := PercentEncode(p[1..]);
      assert p == [p[0]] + p[1..];
      if MustEncode(p[0]) {
        var e := PercentEncode(p);
        assert e[3..] == rest;
        assert HexValue(e[1]) == Some(p[0] / 16) && HexValue(e[2]) == Some(p[0] % 16);
      } else {
        assert PercentEncode(p)[1..] == rest;
      }
    }
  }

  /** Decoding what the client sends gives the path without its leading slashes. */
  lemma EncodedPathDecodes(p: Bytes)
    ensures PercentDecode(EncodedPath(p)) == Some(TrimSlashes(p))
  {
    PercentRoundTrip(TrimSlashes(p));
  }

  /** What may stand unencoded in a path segment: letters, digits and the marks `! $ & ' ( ) * + , - . : ; = @ [ \ ] ^ _ | ~`. */
  predicate StandsRaw(b: Byte) {
    || 0x41 <= b <= 0x5A || 0x61 <= b <= 0x7A || 0x30 <= b <= 0x39
    || b == 0x21 || b == 0x24 || 0x26 <= b <= 0x2E || b == 0x3A || b == 0x3B || b == 0x3D || b == 0x40
    || 0x5B <= b <= 0x5F || b == 0x7C || b == 0x7E
  }

  /** Nothing in the encoding can end the path segment or start a query or fragment, nor is it a blank, a control or a byte
      beyond ASCII: it holds raw bytes and percent signs only, and a name made of raw bytes stays as it is. */
  lemma {:induction false} EncodingIsOneSegment(p: Bytes)
    ensures forall i :: 0 <= i < |PercentEncode(p)| ==> PercentEncode(p)[i] == 0x25 || StandsRaw(PercentEncode(p)[i])
    ensures 0x2F !in PercentEncode(p) && 0x3F !in PercentEncode(p) && 0x23 !in PercentEncode(p) && 0x20 !in PercentEncode(p)
    ensures (forall i :: 0 <= i < |p| ==> StandsRaw(p[i])) <==> PercentEncode(p) == p
  {
    if p != [] {
      EncodingIsOneSegment(p[1..]);
      EncodedFirst(p);
    }
  }

  lemma EncodedFirst(p: Bytes)
    requires p != []
    requires (forall i :: 1 <= i < |p| ==> StandsRaw(p[i])) <==> PercentEncode(p[1..]) == p[1..]
    ensures (forall i :: 0 <= i < |p| ==> StandsRaw(p[i])) <==> PercentEncode(p) == p
  {
    var e := PercentEncode(p);
    if StandsRaw(p[0]) {
      assert e == [p[0]] + PercentEncode(p[1..]) && e[1..] == PercentEncode(p[1..]);
      assert p == [p[0]] + p[1..];
    } else {
      assert e[0] == PERCENT && e[1] == HexDigit(p[0] / 16);
      if e == p {
        assert p[0] == PERCENT && e[1] == 0x32 && e[2] == 0x35;
        EncodingGrows(p[1..]);
      }
    }
  }

  lemma {:induction false} EncodingGrows(p: Bytes)
    ensures |PercentEncode(p)| >= |p|
  {
    if p != [] {
      EncodingGrows(p[1..]);
    }
  }

  // ----- API: validation -----

  /** `path.split('/')`: always at least one component. */
  function Split(p: Bytes): (r: seq<Bytes>)
    ensures |r| > 0
    ensures forall c :: c in r ==> SLASH !in c
  {
    if p == [] then [[]]
    else
      var rest := Split(p[1..]);
      if p[0] == SLASH then [[]] + rest else [[p[0]] + rest[0]] + rest[1..]
  }

  /** Components with one separator between them. */
  function Join(components: seq<Bytes>): Bytes {
    if components == [] then []
    else if |components| == 1 then components[0]
    else components[0] + [SLASH] + Join(components[1..])
  }

  /** Splitting takes a path apart into the components it is joined from. */
  lemma {:induction false} SplitJoins(p: Bytes)
    ensures Join(Split(p)) == p
  {
    if p != [] {
      var rest := Split(p[1..]);
      SplitJoins(p[1..]);
      assert p == [p[0]] + p[1..];
      if p[0] == SLASH {
        assert ([[]] + rest)[1..] == rest;
        assert [] + [SLASH] + Join(rest) == [SLASH] + Join(rest);
      } else {
        JoinFirst(p[0], rest);
      }
    }
  }

  lemma JoinFirst(b: Byte, components: seq<Bytes>)
    requires components != []
    ensures Join([[b] + components[0]] + components[1..]) == [b] + Join(components)
  {
    var extended := [[b] + components[0]] + components[1..];
    assert extended[1..] == components[1..];
    if |components| > 1 {
      assert [b] + components[0] + [SLASH] + Join(components[1..]) == [b] + (components[0] + [SLASH] + Join(components[1..]));
    }
  }

  predicate ValidateFilePath(p: Bytes) {
    p != [] && NUL !in p && PARENT !in Split(p)
  }

  lemma {:induction false} FirstComponent(p: Bytes, c: Bytes)
    requires SLASH !in c
    ensures Split(p)[0] == c <==> c <= p && (|c| == |p| || p[|c|] == SLASH)
    decreases |p|
  {
    if p != [] && p[0] != SLASH {
      var rest := Split(p[1..]);
      assert Split(p)[0] == [p[0]] + rest[0];
      if c == [] || c[0] != p[0] {
        assert Split(p)[0][0] == p[0];
      } else {
        FirstComponent(p[1..], c[1..]);
        assert c == [c[0]] + c[1..] && p == [p[0]] + p[1..];
        assert Split(p)[0] == c <==> rest[0] == c[1..];
      }
    }
  }

  /** The bytes ".." at position `i`, between separators or ends. */
  predicate DotsAt(p: Bytes, i: int) {
    && 0 <= i <= |p| - 2 && p[i] == 0x2E && p[i + 1] == 0x2E
    && (i == 0 || p[i - 1] == SLASH) && (i == |p| - 2 || p[i + 2] == SLASH)
  }

  lemma FirstIsParent(p: Bytes)
    ensures Split(p)[0] == PARENT <==> DotsAt(p, 0)
  {
    FirstComponent(p, PARENT);
  }

  lemma DotsShift(p: Bytes, i: int)
    requires p != [] && i >= 1
    ensures DotsAt(p[1..], i) <==> DotsAt(p, i + 1)
    ensures DotsAt(p, 1) <==> p[0] == SLASH && DotsAt(p[1..], 0)
  {
  }

  lemma {:induction false} LaterParents(p: Bytes)
    ensures PARENT in Split(p)[1..] <==> exists i :: 1 <= i && DotsAt(p, i)
    decreases |p|
  {
    if p != [] {
      var q := p[1..];
      LaterParents(q);
      FirstIsParent(q);
      DotsShift(p, 1);
      assert Split(q) == [Split(q)[0]] + Split(q)[1..];
      if p[0] == SLASH {
        assert Split(p)[1..] == Split(q);
      } else {
        assert Split(p)[1..] == Split(q)[1..];
      }
      if i :| 1 <= i && DotsAt(q, i) {
        DotsShift(p, i);
      }
      if i :| 1 <= i && DotsAt(p, i) {
        if i > 1 {
          DotsShift(p, i - 1);
        }
      }
    }
  }

  /** The API refuses exactly the empty path, a path with a zero byte, and one with ".." between separators or ends. */
  lemma ValidatedIff(p: Bytes)
    ensures ValidateFilePath(p) <==> p != [] && (forall i :: 0 <= i < |p| ==> p[i] != 0) && !exists i :: DotsAt(p, i)
  {
    FirstIsParent(p);
    LaterParents(p);
    assert Split(p) == [Split(p)[0]] + Split(p)[1..];
  }

  // ----- Runtime: resolution -----

  /** The parts `pathlib` keeps: empty and "." components disappear. */
  function Parts(components: seq<Bytes>): (r: seq<Bytes>)
    ensures forall c :: c in r <==> c in components && c != [] && c != CURRENT
  {
    if components == [] then []
    else
      var rest := Parts(components[1..]);
      var c := components[0];
      assert components == [c] + components[1..];
      if c == [] || c == CURRENT then rest else [c] + rest
  }

  /** Resolution in a directory tree without symbolic links: ".." removes the last component,
      and has no effect at the root. */
  function Resolve(base: seq<Bytes>, parts: seq<Bytes>): seq<Bytes>
    decreases |parts|
  {
    if parts == [] then base
    else if parts[0] == PARENT then
      Resolve(if base == [] then base else base[..|base| - 1], parts[1..])
    else Resolve(base + [parts[0]], parts[1..])
  }

  datatype PathError = PathViolation

  /** The components of an absolute directory name in resolved form. */
  ghost predicate Resolved(path: seq<Bytes>) {
    forall i :: 0 <= i < |path| ==> path[i] != [] && path[i] != CURRENT && path[i] != PARENT
  }

  function ResolveWorkspacePath(workspace: seq<Bytes>, requested: Bytes): Result<seq<Bytes>, PathError> {
    if requested == [] || NUL in requested then Err(PathViolation)
    else if requested[0] == SLASH then Err(PathViolation)
    else
      var resolved := Resolve(workspace, Parts(Split(requested)));
      if !(workspace <= resolved) || resolved == workspace then Err(PathViolation)
      else Ok(resolved)
  }

  lemma {:induction false} ResolveStaysResolved(base: seq<Bytes>, parts: seq<Bytes>)
    requires Resolved(base)
    requires forall i :: 0 <= i < |parts| ==> parts[i] != [] && parts[i] != CURRENT
    ensures Resolved(Resolve(base, parts))
    decreases |parts|
  {
    if parts != [] {
      if parts[0] == PARENT {
        ResolveStaysResolved(if base == [] then base else base[..|base| - 1], parts[1..]);
      } else {
        ResolveStaysResolved(base + [parts[0]], parts[1..]);
      }
    }
  }

  /** Whatever is requested, a successful resolution is a strict descendant of the workspace,
      named without "." or ".." components. */
  lemma ResolutionIsConfined(workspace: seq<Bytes>, requested: Bytes)
    requires Resolved(workspace)
    requires ResolveWorkspacePath(workspace, requested).Ok?
    ensures workspace < ResolveWorkspacePath(workspace, requested).value
    ensures Resolved(ResolveWorkspacePath(workspace, requested).value)
  {
    var parts := Parts(Split(requested));
    forall i | 0 <= i < |parts|
      ensures parts[i] != [] && parts[i] != CURRENT
    {
      assert parts[i] in parts;
    }
    ResolveStaysResolved(workspace, parts);
  }

  lemma {:induction false} ResolveWithoutParents(base: seq<Bytes>, parts: seq<Bytes>)
    requires PARENT !in parts
    ensures Resolve(base, parts) == base + parts
    decreases |parts|
  {
    if parts != [] {
      ResolveWithoutParents(base + [parts[0]], parts[1..]);
      assert base + [parts[0]] + parts[1..] == base + parts;
    }
  }

  lemma {:induction false} ResolveAppend(base: seq<Bytes>, parts: seq<Bytes>, more: seq<Bytes>)
    ensures Resolve(base, parts + more) == Resolve(Resolve(base, parts), more)
    decreases |parts|
  {
    if parts == [] {
      assert parts + more == more;
    } else {
      assert (parts + more)[1..] == parts[1..] + more;
      ResolveAppend(if parts[0] == PARENT then if base == [] then base else base[..|base| - 1] else base + [parts[0]], parts[1..], more);
    }
  }

  /** A ".." undoes the component before it, wherever they stand in the path, and does nothing at the root. */
  lemma ParentUndoes(base: seq<Bytes>, before: seq<Bytes>, c: Bytes, after: seq<Bytes>)
    requires c != PARENT
    ensures Resolve(base, before + [c, PARENT] + after) == Resolve(base, before + after)
    ensures Resolve([], [PARENT] + after) == Resolve([], after)
  {
    ResolveAppend(base, before + [c, PARENT], after);
    ResolveAppend(base, before, [c, PARENT]);
    ResolveAppend(base, before, after);
    var mid := Resolve(base, before);
    assert [c, PARENT][1..] == [PARENT] && [PARENT][1..] == [];
    assert (mid + [c])[..|mid + [c]| - 1] == mid;
    assert Resolve(mid, [c, PARENT]) == Resolve(mid + [c], [PARENT]) == Resolve(mid, []) == mid;
    assert ([PARENT] + after)[1..] == after;
  }

  /** A path of the workspace that leaves it and does not come back is refused. */
  lemma LeavingIsRefused(workspace: seq<Bytes>, requested: Bytes, inside: seq<Bytes>)
    requires workspace != [] && PARENT !in inside
    requires Parts(Split(requested)) == [PARENT] + inside
    ensures ResolveWorkspacePath(workspace, requested).Ok?
            <==> requested != [] && NUL !in requested && requested[0] != SLASH
                 && |inside| > 1 && inside[0] == workspace[|workspace| - 1]
  {
    var outside := workspace[..|workspace| - 1];
    assert ([PARENT] + inside)[1..] == inside;
    ResolveWithoutParents(outside, inside);
    var resolved := outside + inside;
    assert Resolve(workspace, [PARENT] + inside) == resolved;
    if |inside| > 1 && inside[0] == workspace[|workspace| - 1] {
      assert resolved[..|workspace|] == workspace;
    }
    if workspace <= resolved && resolved != workspace {
      assert resolved[|workspace| - 1] == workspace[|workspace| - 1];
    }
  }

  lemma PartsAfterSlash(p: Bytes)
    requires p != [] && p[0] == SLASH
    ensures Parts(Split(p)) == Parts(Split(p[1..]))
  {
    var rest := Split(p[1..]);
    assert Split(p) == [[]] + rest;
    assert ([[]] + rest)[1..] == rest;
  }

  /** Trimming only removes empty leading components. */
  lemma {:induction false} TrimKeepsParts(p: Bytes)
    ensures Parts(Split(TrimSlashes(p))) == Parts(Split(p))
  {
    if p != [] && p[0] == SLASH {
      TrimKeepsParts(p[1..]);
      PartsAfterSlash(p);
    }
  }

  lemma TrimKeepsNulFree(p: Bytes)
    requires NUL !in p
    ensures NUL !in TrimSlashes(p)
  {
    var t := TrimSlashes(p);
    forall i | 0 <= i < |t|
      ensures t[i] != NUL
    {
      assert t[i] == p[|p| - |t| + i];
    }
  }

  /** A path names nothing when all its components are empty or ".". */
  predicate NamesNothing(p: Bytes) {
    forall c :: c in Split(p) ==> c == [] || c == CURRENT
  }

  /** The whole pipeline: a path the API accepts, as the client encodes it and the router decodes
      it, resolves to the workspace followed by its named parts, unless it names nothing. */
  lemma PipelineConfinesPaths(workspace: seq<Bytes>, p: Bytes)
    requires ValidateFilePath(p)
    ensures var received := PercentDecode(EncodedPath(p));
            && received.Some?
            && (NamesNothing(p) ==> ResolveWorkspacePath(workspace, received.value) == Err(PathViolation))
            && (!NamesNothing(p) ==>
                  && ResolveWorkspacePath(workspace, received.value) == Ok(workspace + Parts(Split(p)))
                  && workspace < workspace + Parts(Split(p)))
  {
    EncodedPathDecodes(p);
    TrimKeepsParts(p);
    TrimKeepsNulFree(p);
    var t := TrimSlashes(p);
    var parts := Parts(Split(p));
    ResolveWithoutParents(workspace, parts);
    if NamesNothing(p) {
      assert parts == [] by {
        if parts != [] {
          NamedPartIsNamed(p, parts[0]);
        }
      }
    } else {
      var c :| c in Split(p) && c != [] && c != CURRENT;
      assert c in parts;
      assert t != [] by {
        EmptyHasNoParts();
      }
    }
  }

  lemma EmptyHasNoParts()
    ensures Parts(Split([])) == []
  {
    assert Split([])[1..] == [];
  }

  lemma NamedPartIsNamed(p: Bytes, c: Bytes)
    requires c in Parts(Split(p))
    ensures !NamesNothing(p)
  {
    assert c in Split(p) && c != [] && c != CURRENT;
  }

  /** The upload route sends the path unencoded and untrimmed, so there a leading slash is refused. */
  lemma UploadPathResolution(workspace: seq<Bytes>, p: Bytes)
    requires ValidateFilePath(p)
    ensures ResolveWorkspacePath(workspace, p)
         == if p[0] == SLASH || NamesNothing(p) then Err(PathViolation) else Ok(workspace + Parts(Split(p)))
  {
    if p[0] != SLASH {
      assert TrimSlashes(p) == p;
      PipelineConfinesPaths(workspace, p);
      EncodedPathDecodes(p);
    }
  }
}
