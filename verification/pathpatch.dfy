/** marshalJSONPatch: JSON Pointers into an app object's metadata rewritten for the Kubernetes metadata object. */
module PathPatch {
  import opened JsonPointer

  datatype Operation = OpAdd | OpRemove | OpReplace | OpMove | OpCopy | OpTest

  /** A JSON Patch operation; the value is carried along. */
  datatype PatchOperation = PatchOperation(operation: Operation, path: string, value: int)

  datatype Result<T> = Ok(value: T) | Err

  const METADATA := "/metadata/"
  const ANNOTATION_PREFIX := "grafana.com/"

  /** The pointer of the annotations object, then the annotation prefix with its slash escaped. */
  const ESCAPED_PREFIX := "/metadata/annotations/grafana.com~1"

  // ---- the rewriting ----

  predicate UnderMetadata(path: string) {
    METADATA <= path
  }

  /** The path segments the code looks at; the first is "metadata". */
  function Parts(path: string): seq<string> {
    Split(Trim(path))
  }

  /** One turn of the loop. `fields` are the JSON names of the fields of metav1.ObjectMeta. */
  function Rewrite(fields: set<string>, op: PatchOperation): Result<PatchOperation> {
    if op.path == "/metadata" then Err
    else if !UnderMetadata(op.path) then Ok(op)
    else
      var parts := Parts(op.path);
      if |parts| <= 1 then Err
      else if parts[1] in fields then Ok(op)
      else if parts[1] == "extraFields" then
        if |parts| < 3 then Err else Ok(op.(path := METADATA + Join(parts[2..], "/")))
      else
        Ok(op.(path := ESCAPED_PREFIX + Join(parts[1..], "~1"),
               operation := if op.operation.OpReplace? then OpAdd else op.operation))
  }

  /** The loop stops at the first operation it cannot rewrite. */
  function RewriteAll(fields: set<string>, ops: seq<PatchOperation>): (r: Result<seq<PatchOperation>>)
    ensures r.Ok? <==> forall i :: 0 <= i < |ops| ==> Rewrite(fields, ops[i]).Ok?
    ensures r.Ok? ==> |r.value| == |ops| && forall i :: 0 <= i < |ops| ==> Ok(r.value[i]) == Rewrite(fields, ops[i])
  {
    if ops == [] then Ok([])
    else match Rewrite(fields, ops[0])
         case Err => Err
         case Ok(op) => match RewriteAll(fields, ops[1..])
                        case Err => Err
                        case Ok(rest) => Ok([op] + rest)
  }

  /** The first failing operation is the `n`th: those before it have been rewritten and the others have not. */
  ghost predicate CutAt(fields: set<string>, before: seq<PatchOperation>, after: seq<PatchOperation>, n: int)
    requires 0 <= n < |before| == |after|
  {
    && Rewrite(fields, before[n]).Err?
    && (forall i :: 0 <= i < n ==> Ok(after[i]) == Rewrite(fields, before[i]))
    && (forall i :: n <= i < |after| ==> after[i] == before[i])
  }

  /** The caller's slice is rewritten in place: wholly on success, up to the offending operation on failure. */
  method MarshalJSONPatch(fields: set<string>, operations: array<PatchOperation>) returns (r: Result<seq<PatchOperation>>)
    modifies operations
    ensures r == RewriteAll(fields, old(operations[..]))
    ensures r.Ok? ==> operations[..] == r.value
    ensures r.Err? ==> exists n :: 0 <= n < operations.Length && CutAt(fields, old(operations[..]), operations[..], n)
  {
    ghost var before := operations[..];
    for idx := 0 to operations.Length
      invariant forall i :: 0 <= i < idx ==> Ok(operations[i]) == Rewrite(fields, before[i])
      invariant forall i :: idx <= i < operations.Length ==> operations[i] == before[i]
    {
      var op := operations[idx];
      assert op == before[idx];
      if op.path == "/metadata" {
        assert CutAt(fields, before, operations[..], idx);
        return Err;
      }
      if |op.path| < |METADATA| || op.path[..|METADATA|] != METADATA {
        continue;
      }
      var parts := Split(Trim(op.path));
      if |parts| <= 1 {
        assert CutAt(fields, before, operations[..], idx);
        return Err;
      }
      if parts[1] in fields {
        continue;
      }
      if parts[1] == "extraFields" {
        if |parts| < 3 {
          assert CutAt(fields, before, operations[..], idx);
          return Err;
        }
        op := op.(path := METADATA + Join(parts[2..], "/"));
      } else {
        var endPart := Join(parts[1..], "~1");
        op := op.(path := ESCAPED_PREFIX + endPart);
        if op.operation == OpReplace {
          op := op.(operation := OpAdd);
        }
      }
      operations[idx] := op;
    }
    assert RewriteAll(fields, before).Ok? && RewriteAll(fields, before).value == operations[..];
    return Ok(operations[..]);
  }

  // ---- what the rewritten paths point at ----

  /** The path below the metadata object, and the same without its trailing slashes. */
  function Rest(path: string): string
    requires UnderMetadata(path)
  {
    path[|METADATA|..]
  }

  function Core(path: string): string
    requires UnderMetadata(path)
  {
    TrimRight(Rest(path))
  }

  /** The code's segments are "metadata" and those of the trimmed rest. */
  lemma PartsOf(path: string)
    requires UnderMetadata(path)
    ensures Parts(path) == if Core(path) == "" then ["metadata"] else ["metadata"] + Split(Core(path))
  {
    assert path == "/" + ("metadata" + "/" + Rest(path));
    TrimmedParts("metadata", Rest(path));
  }

  /** Exactly these paths are refused: the metadata object, with or without slashes after it, and extraFields as a whole. */
  lemma RefusedIff(fields: set<string>, op: PatchOperation)
    requires "extraFields" !in fields
    ensures Rewrite(fields, op).Err? <==>
            op.path == "/metadata" || (UnderMetadata(op.path) && (Core(op.path) == "" || Core(op.path) == "extraFields"))
  {
    if UnderMetadata(op.path) {
      var core := Core(op.path);
      PartsOf(op.path);
      SplitOfNoSlash("extraFields");
      JoinOfSplit(core);
    }
  }

  /** A path into custom metadata: neither a Kubernetes field nor extraFields. */
  predicate Custom(fields: set<string>, path: string) {
    UnderMetadata(path) && |Parts(path)| > 1 && Parts(path)[1] !in fields && Parts(path)[1] != "extraFields"
  }

  /** The annotation a custom path means: the prefix and its decoded tokens below the metadata object, joined by slashes. */
  function Meant(path: string): string
    requires UnderMetadata(path) && |Tokens(path)| > 1
  {
    ANNOTATION_PREFIX + Join(DecodeAll(Tokens(path)[1..]), "/")
  }

  lemma TokensUnder(path: string)
    requires UnderMetadata(path)
    ensures Tokens(path) == ["metadata"] + Split(Rest(path))
  {
    assert path == "/" + ("metadata" + "/" + Rest(path));
    TokensOf("metadata", Rest(path));
  }

  lemma MeantIsDecoded(path: string)
    requires UnderMetadata(path) && WellEscaped(path)
    ensures WellEscaped(Rest(path)) && |Tokens(path)| > 1
    ensures Meant(path) == ANNOTATION_PREFIX + Decode(Rest(path))
  {
    var rest := Rest(path);
    TokensUnder(path);
    assert path == METADATA + rest;
    EscapedBehind(METADATA, rest);
    DecodeSegments(rest);
  }

  /** Behind the escaped prefix, an end without slashes makes the third and last token. */
  lemma EndTokens(path: string, last: string)
    requires path == METADATA + ("annotations" + "/" + last) && last != "" && '/' !in last
    ensures UnderMetadata(path) && Tokens(path) == Parts(path) == ["metadata", "annotations", last]
  {
    var rest := Rest(path);
    assert rest == "annotations" + "/" + last;
    SplitAtSlash("annotations", last);
    SplitOfNoSlash(last);
    assert rest[|rest| - 1] == last[|last| - 1] && last[|last| - 1] in last;
    TokensUnder(path);
    PartsOf(path);
  }

  /** The annotation key as the code spells it. */
  function Escaped(core: string): string {
    "grafana.com" + ("~1" + Join(Split(core), "~1"))
  }

  lemma PrefixSpelled(end: string)
    ensures ESCAPED_PREFIX + end == METADATA + ("annotations" + "/" + ("grafana.com" + ("~1" + end)))
  {
  }

  lemma CustomPath(fields: set<string>, op: PatchOperation)
    requires Custom(fields, op.path)
    ensures Rewrite(fields, op).Ok?
    ensures Rewrite(fields, op).value.path == METADATA + ("annotations" + "/" + Escaped(Core(op.path)))
  {
    PartsOf(op.path);
    assert Parts(op.path)[1..] == Split(Core(op.path));
    PrefixSpelled(Join(Split(Core(op.path)), "~1"));
  }

  lemma CustomTokens(fields: set<string>, op: PatchOperation)
    requires Custom(fields, op.path)
    ensures Rewrite(fields, op).Ok?
    ensures var path := Rewrite(fields, op).value.path;
      UnderMetadata(path) && Tokens(path) == Parts(path) == ["metadata", "annotations", Escaped(Core(op.path))]
  {
    CustomPath(fields, op);
    EscapedJoinHasNoSlash(Core(op.path));
    EndTokens(Rewrite(fields, op).value.path, Escaped(Core(op.path)));
  }

  lemma PrefixCancels(p: string, a: string, b: string)
    ensures p + a == p + b <==> a == b
  {
    assert (p + a)[|p|..] == a && (p + b)[|p|..] == b;
  }

  lemma KeyDecoded(core: string)
    requires WellEscaped(core)
    ensures Decode(Escaped(core)) == ANNOTATION_PREFIX + Decode(core)
  {
    DecodeSegments(core);
    DecodeBehind("grafana.com", Join(Split(core), "~1"));
    assert "grafana.com" + ("/" + Decode(core)) == ANNOTATION_PREFIX + Decode(core);
  }

  lemma CustomMeaning(path: string)
    requires UnderMetadata(path) && WellEscaped(path) && Core(path) != ""
    ensures |Tokens(path)| > 1
    ensures Decode(Escaped(Core(path))) == Meant(path) <==> path[|path| - 1] != '/'
  {
    var rest, core := Rest(path), Core(path);
    MeantIsDecoded(path);
    DecodeTrimmedIff(rest);
    KeyDecoded(core);
    PrefixCancels(ANNOTATION_PREFIX, Decode(core), Decode(rest));
    assert path[|path| - 1] == rest[|rest| - 1];
  }

  /**
    Main theorem. A well-escaped custom path is rewritten to a pointer of exactly three
    tokens under /metadata/annotations, and its last token names the annotation the
    original path means exactly when that path does not end in a slash.
   */
  lemma PointsAtAnnotationIff(fields: set<string>, op: PatchOperation)
    requires Custom(fields, op.path) && WellEscaped(op.path)
    ensures |Tokens(op.path)| > 1 && Rewrite(fields, op).Ok?
    ensures var path := Rewrite(fields, op).value.path;
      && UnderMetadata(path)
      && |Tokens(path)| == 3 && Tokens(path)[..2] == ["metadata", "annotations"]
      && (Decode(Tokens(path)[2]) == Meant(op.path) <==> op.path[|op.path| - 1] != '/')
  {
    PartsOf(op.path);
    CustomTokens(fields, op);
    CustomMeaning(op.path);
  }

  // ---- a second pass ----

  /** A path into one of the extraFields. */
  predicate Extra(path: string) {
    UnderMetadata(path) && |Parts(path)| >= 3 && Parts(path)[1] == "extraFields"
  }

  lemma ExtraParts(path: string)
    requires Extra(path)
    ensures var to := METADATA + Join(Parts(path)[2..], "/");
      |to| < |path| && UnderMetadata(to) && Parts(to) == ["metadata"] + Parts(path)[2..]
  {
    var core, parts := Core(path), Parts(path);
    PartsOf(path);
    assert parts[1..] == Split(core) && parts[1..][1..] == parts[2..];
    TailSegments(core);
    var tail := Join(parts[2..], "/");
    assert Rest(METADATA + tail) == tail;
    PartsOf(METADATA + tail);
  }

  /**
    What rewriting a patch leaves alone: all values, every operation but a replace of custom metadata,
    which becomes an add, and every path outside the metadata object or to a Kubernetes field. A
    path into extraFields keeps its segments but that one.
   */
  lemma RewritingKeeps(fields: set<string>, ops: seq<PatchOperation>, i: nat)
    requires RewriteAll(fields, ops).Ok? && i < |ops|
    ensures |RewriteAll(fields, ops).value| == |ops|
    ensures var op, to := ops[i], RewriteAll(fields, ops).value[i];
      && to.value == op.value
      && to.operation == (if Custom(fields, op.path) && op.operation == OpReplace then OpAdd else op.operation)
      && (!UnderMetadata(op.path) || Parts(op.path)[1] in fields ==> to.path == op.path)
      && (Extra(op.path) && "extraFields" !in fields ==> Parts(to.path) == ["metadata"] + Parts(op.path)[2..])
  {
    assert Ok(RewriteAll(fields, ops).value[i]) == Rewrite(fields, ops[i]);
    if Extra(ops[i].path) {
      ExtraParts(ops[i].path);
    }
  }

  /**
    Rewriting what has been rewritten changes nothing, with one exact exception: a path
    under extraFields whose next segment is not a Kubernetes field is rewritten again.
   */
  lemma SecondPassIff(fields: set<string>, op: PatchOperation)
    requires "annotations" in fields && "extraFields" !in fields && Rewrite(fields, op).Ok?
    ensures var once := Rewrite(fields, op);
      Rewrite(fields, once.value) == once <==> !(Extra(op.path) && Parts(op.path)[2] !in fields)
  {
    var once := Rewrite(fields, op).value;
    if Extra(op.path) {
      ExtraParts(op.path);
      var to := once.path;
      assert Parts(to)[1] == Parts(op.path)[2];
      if Extra(to) {
        ExtraParts(to);
      } else if Custom(fields, to) {
        CustomTokens(fields, once);
      }
    } else if Custom(fields, op.path) {
      CustomTokens(fields, op);
    }
  }

  /** A whole patch without extraFields can be marshalled twice: the second time changes nothing. */
  lemma {:induction false} MarshalTwice(fields: set<string>, ops: seq<PatchOperation>)
    requires "annotations" in fields && "extraFields" !in fields && RewriteAll(fields, ops).Ok?
    requires forall i :: 0 <= i < |ops| ==> !Extra(ops[i].path)
    ensures RewriteAll(fields, RewriteAll(fields, ops).value) == RewriteAll(fields, ops)
  {
    var once := RewriteAll(fields, ops).value;
    forall i | 0 <= i < |once| ensures Rewrite(fields, once[i]) == Ok(once[i]) {
      SecondPassIff(fields, ops[i]);
      assert Ok(once[i]) == Rewrite(fields, ops[i]);
    }
    assert RewriteAll(fields, once).value == once;
  }

  // ---- the two failures on concrete paths ----

  lemma CoreOf(path: string, rest: string, core: string)
    requires path == METADATA + rest && '/' !in core && core != "" && (rest == core || rest == core + "/")
    ensures UnderMetadata(path) && Core(path) == core && Parts(path) == ["metadata", core]
  {
    assert Rest(path) == rest;
    assert core[|core| - 1] in core;
    if rest == core + "/" {
      TrimRightAppend(core, "");
      assert core + "/" + "" == rest;
    }
    assert Core(path) == core;
    PartsOf(path);
    SplitOfNoSlash(core);
  }

  /** The trailing slash of this path is lost: the annotation is not the one the path means. */
  lemma {:induction false} TrailingSlashLost(fields: set<string>, op: PatchOperation)
    requires "a" !in fields && op.path == "/metadata/a/"
    ensures |Tokens(op.path)| > 1 && Rewrite(fields, op).Ok? && UnderMetadata(Rewrite(fields, op).value.path)
    ensures var tokens := Tokens(Rewrite(fields, op).value.path);
      |tokens| == 3 && Decode(tokens[2]) != Meant(op.path)
  {
    assert op.path == METADATA + "a/" && "a/" == "a" + "/";
    CoreOf(op.path, "a/", "a");
    assert '~' !in op.path;
    DecodePlain(op.path);
    PointsAtAnnotationIff(fields, op);
  }

  /** This path under extraFields is rewritten again by a second pass. */
  lemma SecondPassChanges(fields: set<string>, op: PatchOperation)
    requires "annotations" in fields && "extraFields" !in fields && "a" !in fields
    requires op.path == "/metadata/extraFields/a"
    ensures Rewrite(fields, op).Ok? && Rewrite(fields, Rewrite(fields, op).value) != Rewrite(fields, op)
  {
    assert op.path == METADATA + ("extraFields" + "/" + "a");
    TwoSegments(op.path, "extraFields", "a");
    SecondPassIff(fields, op);
  }

  lemma TwoSegments(path: string, a: string, b: string)
    requires path == METADATA + (a + "/" + b) && '/' !in a && '/' !in b && b != ""
    ensures UnderMetadata(path) && Parts(path) == ["metadata", a, b]
  {
    var rest := a + "/" + b;
    assert Rest(path) == rest;
    assert rest[|rest| - 1] == b[|b| - 1] && b[|b| - 1] in b;
    assert Core(path) == rest;
    PartsOf(path);
    SplitOfNoSlash(b);
    SplitAtSlash(a, b);
  }
}
