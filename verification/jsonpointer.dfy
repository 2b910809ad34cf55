/** Strings split and joined at slashes, and JSON Pointers (RFC 6901). */
module JsonPointer {

  /** strings.Split at slashes. */
  function Split(s: string): (parts: seq<string>)
    ensures |parts| >= 1
  {
    if s == "" then [""]
    else
      var rest := Split(s[1..]);
      if s[0] == '/' then [""] + rest else [[s[0]] + rest[0]] + rest[1..]
  }

  /** strings.Join. */
  function Join(parts: seq<string>, sep: string): string
    requires |parts| >= 1
  {
    if |parts| == 1 then parts[0] else parts[0] + sep + Join(parts[1..], sep)
  }

  function TrimLeft(s: string): string {
    if s != "" && s[0] == '/' then TrimLeft(s[1..]) else s
  }

  function TrimRight(s: string): (r: string)
    ensures r <= s && (r == "" || r[|r| - 1] != '/')
    ensures s == "" || s[|s| - 1] != '/' ==> r == s
  {
    if s != "" && s[|s| - 1] == '/' then TrimRight(s[..|s| - 1]) else s
  }

  /** strings.Trim of slashes. */
  function Trim(s: string): string {
    TrimRight(TrimLeft(s))
  }

  /** The reference tokens of a pointer that starts with a slash (section 3 of RFC 6901). */
  function Tokens(pointer: string): seq<string>
    requires pointer != "" && pointer[0] == '/'
  {
    Split(pointer[1..])
  }

  /** A tilde is always followed by 0 or 1 (section 3 of RFC 6901). */
  predicate WellEscaped(s: string) {
    if s == "" then true
    else if s[0] == '~' then |s| >= 2 && (s[1] == '0' || s[1] == '1') && WellEscaped(s[2..])
    else WellEscaped(s[1..])
  }

  /** A token evaluated: ~1 is a slash and ~0 a tilde (section 4 of RFC 6901). */
  function Decode(s: string): string {
    if s == "" then ""
    else if s[0] == '~' && |s| >= 2 && s[1] == '1' then "/" + Decode(s[2..])
    else if s[0] == '~' && |s| >= 2 && s[1] == '0' then "~" + Decode(s[2..])
    else [s[0]] + Decode(s[1..])
  }

  /** A token spelled in a pointer: a tilde becomes ~0 and a slash ~1 (section 3 of RFC 6901). */
  function Encode(token: string): string {
    if token == "" then ""
    else (if token[0] == '~' then "~0" else if token[0] == '/' then "~1" else [token[0]]) + Encode(token[1..])
  }

  /** Evaluating a spelled token gives it back, and spelling it makes it one token of a well-formed pointer. */
  lemma {:induction false} DecodeOfEncode(token: string)
    ensures Decode(Encode(token)) == token && WellEscaped(Encode(token)) && '/' !in Encode(token)
  {
    if token != "" {
      DecodeOfEncode(token[1..]);
      var head, rest := Encode(token)[..|Encode(token)| - |Encode(token[1..])|], Encode(token[1..]);
      assert Encode(token) == head + rest;
      if token[0] == '~' || token[0] == '/' {
        assert Encode(token)[2..] == rest;
      } else {
        assert Encode(token)[1..] == rest;
      }
    }
  }

  function DecodeAll(parts: seq<string>): (r: seq<string>)
    ensures |r| == |parts|
  {
    if parts == [] then [] else [Decode(parts[0])] + DecodeAll(parts[1..])
  }

  // ---- splitting and joining ----

  lemma {:induction false} JoinOfSplit(s: string)
    ensures Join(Split(s), "/") == s
  {
    if s != "" {
      JoinOfSplit(s[1..]);
      var rest := Split(s[1..]);
      if s[0] == '/' {
        assert ([""] + rest)[1..] == rest;
        assert "" + "/" + s[1..] == s;
      } else {
        var parts := Split(s);
        assert parts[1..] == rest[1..];
        if |rest| > 1 {
          var tail := Join(rest[1..], "/");
          assert ([s[0]] + rest[0]) + "/" + tail == [s[0]] + (rest[0] + "/" + tail);
        }
        assert [s[0]] + s[1..] == s;
      }
    }
  }

  lemma {:induction false} SplitHasNoSlash(s: string)
    ensures forall k :: 0 <= k < |Split(s)| ==> '/' !in Split(s)[k]
  {
    if s != "" {
      SplitHasNoSlash(s[1..]);
    }
  }

  /** A slash ends the segment before it. */
  lemma {:induction false} SplitAtSlash(a: string, b: string)
    requires '/' !in a
    ensures Split(a + "/" + b) == [a] + Split(b)
  {
    var s := a + "/" + b;
    if a == "" {
      assert s[1..] == b;
    } else {
      SplitAtSlash(a[1..], b);
      assert s[1..] == a[1..] + "/" + b;
      assert s[0] == a[0] && a[0] in a;
      assert [a[0]] + a[1..] == a;
    }
  }

  lemma {:induction false} SplitOfNoSlash(a: string)
    requires '/' !in a
    ensures Split(a) == [a]
  {
    if a != "" {
      SplitOfNoSlash(a[1..]);
      assert a[0] in a;
      assert [a[0]] + a[1..] == a;
    }
  }

  lemma {:induction false} SplitOfJoin(parts: seq<string>)
    requires |parts| >= 1 && forall k :: 0 <= k < |parts| ==> '/' !in parts[k]
    ensures Split(Join(parts, "/")) == parts
  {
    if |parts| == 1 {
      SplitOfNoSlash(parts[0]);
    } else {
      SplitOfJoin(parts[1..]);
      SplitAtSlash(parts[0], Join(parts[1..], "/"));
    }
  }

  // ---- escaping ----

  lemma {:induction false} DecodeAppend(a: string, b: string)
    requires WellEscaped(a)
    ensures Decode(a + b) == Decode(a) + Decode(b)
    ensures WellEscaped(a + b) <==> WellEscaped(b)
  {
    if a == "" {
      assert a + b == b;
    } else if a[0] == '~' {
      assert (a + b)[2..] == a[2..] + b;
      DecodeAppend(a[2..], b);
    } else {
      assert (a + b)[1..] == a[1..] + b;
      DecodeAppend(a[1..], b);
    }
  }

  /** Splitting at slashes cuts no escape sequence. */
  lemma {:induction false} SplitWellEscaped(s: string)
    requires WellEscaped(s)
    ensures forall k :: 0 <= k < |Split(s)| ==> WellEscaped(Split(s)[k])
  {
    if s == "" {
    } else if s[0] == '~' {
      SplitWellEscaped(s[2..]);
      var rest := Split(s[2..]);
      assert s[1..][1..] == s[2..];
      assert Split(s)[0] == [s[0]] + ([s[1]] + rest[0]) && Split(s)[0][2..] == rest[0];
      assert Split(s)[1..] == rest[1..];
    } else {
      SplitWellEscaped(s[1..]);
      var rest := Split(s[1..]);
      if s[0] != '/' {
        assert Split(s)[0][1..] == rest[0];
        assert Split(s)[1..] == rest[1..];
      }
    }
  }

  /** Escaped slashes decode to what plain slashes separate. */
  lemma {:induction false} DecodeJoined(parts: seq<string>)
    requires |parts| >= 1 && forall k :: 0 <= k < |parts| ==> WellEscaped(parts[k])
    ensures Decode(Join(parts, "~1")) == Join(DecodeAll(parts), "/")
  {
    if |parts| > 1 {
      DecodeJoined(parts[1..]);
      var tail := Join(parts[1..], "~1");
      assert parts[0] + "~1" + tail == parts[0] + ("~1" + tail);
      DecodeAppend(parts[0], "~1" + tail);
      assert ("~1" + tail)[2..] == tail;
      assert DecodeAll(parts)[1..] == DecodeAll(parts[1..]);
      assert Decode(parts[0]) + ("/" + Decode(tail)) == Decode(parts[0]) + "/" + Decode(tail);
    }
  }

  lemma {:induction false} DecodeSplit(parts: seq<string>)
    requires |parts| >= 1 && forall k :: 0 <= k < |parts| ==> WellEscaped(parts[k])
    ensures Decode(Join(parts, "/")) == Join(DecodeAll(parts), "/")
  {
    if |parts| > 1 {
      DecodeSplit(parts[1..]);
      var tail := Join(parts[1..], "/");
      assert parts[0] + "/" + tail == parts[0] + ("/" + tail);
      DecodeAppend(parts[0], "/" + tail);
      assert ("/" + tail)[1..] == tail;
      assert DecodeAll(parts)[1..] == DecodeAll(parts[1..]);
      assert Decode(parts[0]) + ("/" + Decode(tail)) == Decode(parts[0]) + "/" + Decode(tail);
    }
  }

  lemma {:induction false} EscapedBeforeSlash(s: string)
    requires WellEscaped(s + "/")
    ensures WellEscaped(s) && Decode(s + "/") == Decode(s) + "/"
  {
    if s == "" {
      assert s + "/" == "/" && "/"[1..] == "";
    } else if s[0] == '~' {
      assert (s + "/")[1] != '/';
      assert (s + "/")[2..] == s[2..] + "/";
      EscapedBeforeSlash(s[2..]);
    } else {
      assert (s + "/")[1..] == s[1..] + "/";
      EscapedBeforeSlash(s[1..]);
    }
  }

  /** Trailing slashes decode to themselves, so trimming them shortens the meaning by as much. */
  lemma {:induction false} DecodeTrimmed(s: string)
    requires WellEscaped(s)
    ensures WellEscaped(TrimRight(s)) && |Decode(s)| == |Decode(TrimRight(s))| + |s| - |TrimRight(s)|
  {
    if s != "" && s[|s| - 1] == '/' {
      var init := s[..|s| - 1];
      assert s == init + "/";
      EscapedBeforeSlash(init);
      DecodeTrimmed(init);
    }
  }

  lemma {:induction false} DecodeTrimmedIff(s: string)
    requires WellEscaped(s) && s != ""
    ensures WellEscaped(TrimRight(s))
    ensures Decode(s) == Decode(TrimRight(s)) <==> s[|s| - 1] != '/'
  {
    DecodeTrimmed(s);
  }

  lemma EscapedBehind(a: string, b: string)
    requires '~' !in a && WellEscaped(a + b)
    ensures WellEscaped(b)
  {
    DecodePlain(a);
    DecodeAppend(a, b);
  }

  lemma {:induction false} DecodePlain(s: string)
    requires '~' !in s
    ensures WellEscaped(s) && Decode(s) == s
  {
    if s != "" {
      assert s[0] in s;
      DecodePlain(s[1..]);
      assert [s[0]] + s[1..] == s;
    }
  }

  // ---- pointers below one object ----

  lemma {:induction false} TrimRightAppend(a: string, b: string)
    requires a != "" && a[|a| - 1] != '/'
    ensures TrimRight(a + "/" + b) == if TrimRight(b) == "" then a else a + "/" + TrimRight(b)
    decreases |b|
  {
    var s := a + "/" + b;
    if b == "" {
      assert s[..|s| - 1] == a;
    } else if b[|b| - 1] == '/' {
      assert s[..|s| - 1] == a + "/" + b[..|b| - 1];
      TrimRightAppend(a, b[..|b| - 1]);
    }
  }

  lemma TrimLeftOne(s: string)
    requires s != "" && s[0] != '/'
    ensures TrimLeft("/" + s) == s
  {
  }

  lemma TrimAround(head: string, rest: string)
    requires head != "" && '/' !in head
    ensures Trim("/" + (head + "/" + rest)) == if TrimRight(rest) == "" then head else head + "/" + TrimRight(rest)
  {
    assert (head + "/" + rest)[0] == head[0] && head[0] in head && head[|head| - 1] in head;
    TrimLeftOne(head + "/" + rest);
    TrimRightAppend(head, rest);
  }

  /** The trimmed segments of a pointer are its first token and those of the rest without trailing slashes. */
  lemma TrimmedParts(head: string, rest: string)
    requires head != "" && '/' !in head
    ensures Split(Trim("/" + (head + "/" + rest))) == if TrimRight(rest) == "" then [head] else [head] + Split(TrimRight(rest))
  {
    TrimAround(head, rest);
    SplitOfNoSlash(head);
    SplitAtSlash(head, TrimRight(rest));
  }

  /** All the segments of a pointer, untrimmed. */
  lemma TokensOf(head: string, rest: string)
    requires '/' !in head
    ensures Tokens("/" + (head + "/" + rest)) == [head] + Split(rest)
  {
    assert ("/" + (head + "/" + rest))[1..] == head + "/" + rest;
    SplitAtSlash(head, rest);
  }

  /** Splitting at slashes and joining by escaped ones does not change what is meant. */
  lemma {:induction false} DecodeSegments(core: string)
    requires WellEscaped(core)
    ensures Decode(Join(Split(core), "~1")) == Decode(core) == Join(DecodeAll(Split(core)), "/")
  {
    SplitWellEscaped(core);
    DecodeJoined(Split(core));
    DecodeSplit(Split(core));
    JoinOfSplit(core);
  }

  /** Behind a plain prefix and an escaped slash, `end` is decoded on its own. */
  lemma DecodeBehind(prefix: string, end: string)
    requires '~' !in prefix
    ensures Decode(prefix + ("~1" + end)) == prefix + ("/" + Decode(end))
  {
    DecodePlain(prefix);
    DecodeAppend(prefix, "~1" + end);
  }

  lemma EscapedJoinHasNoSlash(core: string)
    ensures '/' !in Join(Split(core), "~1")
  {
  }

  /** Dropping the first segment of a pointer without trailing slash leaves such a pointer. */
  lemma TailSegments(core: string)
    requires |Split(core)| >= 2 && core != "" && core[|core| - 1] != '/'
    ensures var parts := Split(core); var tail := Join(parts[1..], "/");
      core == parts[0] + "/" + tail && tail != "" && TrimRight(tail) == tail && Split(tail) == parts[1..]
  {
    var parts := Split(core);
    var tail := Join(parts[1..], "/");
    JoinOfSplit(core);
    SplitHasNoSlash(core);
    SplitOfJoin(parts[1..]);
    assert core[|core| - 1] == if tail == "" then '/' else tail[|tail| - 1];
  }
}
