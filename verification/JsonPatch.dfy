/**
 JSON Pointers (RFC 6901) and the builder of JSON Patches (RFC 6902) used to talk to the API server.
 */
module JsonPatch {
  import opened GoStrings

  // Pointers.

  /** strings.NewReplacer("~", "~0", "/", "~1"): one pass over the characters. */
  function Escape(token: string): string {
    if token == "" then ""
    else (if token[0] == '~' then "~0" else if token[0] == '/' then "~1" else [token[0]]) + Escape(token[1..])
  }

  function PointerOf(tokens: seq<string>): string {
    if tokens == [] then ""
    else PointerOf(tokens[..|tokens| - 1]) + "/" + Escape(tokens[|tokens| - 1])
  }

  method Pointer(tokens: seq<string>) returns (s: string)
    ensures s == PointerOf(tokens)
  {
    s := "";
    for i := 0 to |tokens|
      invariant s == PointerOf(tokens[..i])
    {
      assert tokens[..i + 1][..i] == tokens[..i];
      s := s + "/";
      s := s + Escape(tokens[i]);
    }
    assert tokens[..|tokens|] == tokens;
  }

  /** Replaces every occurrence of `~d`, left to right, by `to`. */
  function ReplaceAll(s: string, d: char, to: char): string {
    if |s| >= 2 && s[0] == '~' && s[1] == d then [to] + ReplaceAll(s[2..], d, to)
    else if s == "" then ""
    else [s[0]] + ReplaceAll(s[1..], d, to)
  }

  /** Section 4 of RFC 6901: first `~1` becomes `/`, then `~0` becomes `~`. */
  function Unescape(token: string): string {
    ReplaceAll(ReplaceAll(token, '1', '/'), '0', '~')
  }

  /** Section 3 of RFC 6901: a `~` is always followed by 0 or 1. */
  predicate WellEscaped(token: string) {
    if token == "" then true
    else if token[0] == '~' then |token| >= 2 && (token[1] == '0' || token[1] == '1') && WellEscaped(token[2..])
    else token[0] != '/' && WellEscaped(token[1..])
  }

  /** Section 3 of RFC 6901: empty, or tokens each preceded by `/`. */
  predicate ValidPointer(s: string) {
    s == "" || (s[0] == '/' && forall t | t in Split(s[1..], '/') :: WellEscaped(t))
  }

  function UnescapeAll(tokens: seq<string>): seq<string> {
    if tokens == [] then [] else [Unescape(tokens[0])] + UnescapeAll(tokens[1..])
  }

  function EscapeAll(tokens: seq<string>): seq<string> {
    if tokens == [] then [] else [Escape(tokens[0])] + EscapeAll(tokens[1..])
  }

  /** Evaluation of a pointer into its reference tokens. */
  function Decode(s: string): Option<seq<string>> {
    if s == "" then Some([])
    else if s[0] != '/' then None
    else Some(UnescapeAll(Split(s[1..], '/')))
  }

  lemma {:induction false} EscapeIsClean(token: string)
    ensures '/' !in Escape(token) && WellEscaped(Escape(token))
  {
    if token != "" {
      EscapeIsClean(token[1..]);
      var e := Escape(token);
      if token[0] == '~' || token[0] == '/' {
        assert e[2..] == Escape(token[1..]);
      } else {
        assert e[1..] == Escape(token[1..]);
      }
    }
  }

  /** The token with only its slashes restored: what the first replacement leaves of an escaped token. */
  function TildesOnly(token: string): string {
    if token == "" then "" else (if token[0] == '~' then "~0" else [token[0]]) + TildesOnly(token[1..])
  }

  lemma {:induction false} FirstReplacement(token: string)
    ensures ReplaceAll(Escape(token), '1', '/') == TildesOnly(token)
  {
    if token != "" {
      FirstReplacement(token[1..]);
      var e, rest := Escape(token), Escape(token[1..]);
      if token[0] == '~' {
        assert e[1..] == "0" + rest && e[1..][1..] == rest;
        assert ReplaceAll(e, '1', '/') == "~" + ReplaceAll(e[1..], '1', '/');
        assert ReplaceAll(e[1..], '1', '/') == "0" + ReplaceAll(rest, '1', '/');
      } else if token[0] == '/' {
        assert e[2..] == rest;
      } else {
        assert e[1..] == rest;
      }
    }
  }

  lemma {:induction false} SecondReplacement(token: string)
    ensures ReplaceAll(TildesOnly(token), '0', '~') == token
  {
    if token != "" {
      SecondReplacement(token[1..]);
      var t, rest := TildesOnly(token), TildesOnly(token[1..]);
      if token[0] == '~' {
        assert t[2..] == rest;
      } else {
        assert t[1..] == rest;
      }
    }
  }

  lemma UnescapeEscape(token: string)
    ensures Unescape(Escape(token)) == token
  {
    FirstReplacement(token);
    SecondReplacement(token);
  }

  /** On the tokens the grammar allows, escaping undoes unescaping. */
  lemma {:induction false} EscapeUnescape(token: string)
    requires WellEscaped(token)
    ensures Escape(Unescape(token)) == token
  {
    if token != "" {
      if token[0] == '~' {
        EscapeUnescape(token[2..]);
        var first := ReplaceAll(token[2..], '1', '/');
        if token[1] == '1' {
          assert ReplaceAll(token, '1', '/') == "/" + first;
          assert ("/" + first)[1..] == first;
          assert Unescape(token) == "/" + Unescape(token[2..]);
          assert token == "~1" + token[2..];
        } else {
          assert token[1..][1..] == token[2..];
          assert ReplaceAll(token[1..], '1', '/') == "0" + first;
          assert ReplaceAll(token, '1', '/') == "~0" + first;
          assert ("~0" + first)[2..] == first;
          assert Unescape(token) == "~" + Unescape(token[2..]);
          assert token == "~0" + token[2..];
        }
      } else {
        EscapeUnescape(token[1..]);
        var first := ReplaceAll(token[1..], '1', '/');
        assert ReplaceAll(token, '1', '/') == [token[0]] + first;
        assert ([token[0]] + first)[1..] == first;
        assert Unescape(token) == [token[0]] + Unescape(token[1..]);
      }
    }
  }

  lemma {:induction false} PointerIsJoin(tokens: seq<string>)
    requires tokens != []
    ensures PointerOf(tokens) == "/" + Join(EscapeAll(tokens), '/')
  {
    var init, last := tokens[..|tokens| - 1], tokens[|tokens| - 1];
    EscapeAllSnoc(init, last);
    assert tokens == init + [last];
    JoinSnoc(EscapeAll(init), Escape(last), '/');
    if init != [] {
      PointerIsJoin(init);
    }
  }

  lemma {:induction false} EscapeAllSnoc(init: seq<string>, last: string)
    ensures EscapeAll(init + [last]) == EscapeAll(init) + [Escape(last)]
    ensures |EscapeAll(init)| == |init|
  {
    if init != [] {
      EscapeAllSnoc(init[1..], last);
      assert (init + [last])[1..] == init[1..] + [last];
    }
  }

  lemma {:induction false} EscapeAllMeaning(tokens: seq<string>)
    ensures UnescapeAll(EscapeAll(tokens)) == tokens
    ensures forall t | t in EscapeAll(tokens) :: '/' !in t && WellEscaped(t)
    ensures tokens != [] ==> EscapeAll(tokens) != []
  {
    if tokens != [] {
      EscapeAllMeaning(tokens[1..]);
      UnescapeEscape(tokens[0]);
      EscapeIsClean(tokens[0]);
      assert EscapeAll(tokens)[1..] == EscapeAll(tokens[1..]);
    }
  }

  lemma {:induction false} UnescapeAllMeaning(tokens: seq<string>)
    requires forall t | t in tokens :: WellEscaped(t)
    ensures EscapeAll(UnescapeAll(tokens)) == tokens
    ensures |UnescapeAll(tokens)| == |tokens|
  {
    if tokens != [] {
      UnescapeAllMeaning(tokens[1..]);
      EscapeUnescape(tokens[0]);
      assert UnescapeAll(tokens)[1..] == UnescapeAll(tokens[1..]);
    }
  }

  /** Every token list survives encoding, and the encoding is a valid pointer. */
  lemma DecodePointer(tokens: seq<string>)
    ensures Decode(PointerOf(tokens)) == Some(tokens)
    ensures ValidPointer(PointerOf(tokens))
  {
    if tokens != [] {
      EscapeAllMeaning(tokens);
      PointerIsJoin(tokens);
      SplitJoin(EscapeAll(tokens), '/');
      assert PointerOf(tokens)[1..] == Join(EscapeAll(tokens), '/');
    }
  }

  lemma PointerOfParts(parts: seq<string>)
    requires parts != [] && forall t | t in parts :: WellEscaped(t)
    ensures PointerOf(UnescapeAll(parts)) == "/" + Join(parts, '/')
  {
    UnescapeAllMeaning(parts);
    hide Join, WellEscaped, UnescapeAll, PointerOf;
    PointerIsJoin(UnescapeAll(parts));
  }

  /** Conversely every valid pointer is the encoding of the tokens it decodes to. */
  lemma PointerOfDecode(s: string)
    requires ValidPointer(s)
    ensures Decode(s).Some? && PointerOf(Decode(s).value) == s
  {
    if s != "" {
      JoinSplit(s[1..], '/');
      PointerOfParts(Split(s[1..], '/'));
      assert s == "/" + s[1..];
    }
    hide Join, Split, WellEscaped, UnescapeAll;
  }

  // Patches.

  datatype Kind = AddOp | ReplaceOp | RemoveOp

  /** An entry of the patch: an operation, or the placeholder of one whose value is still to come. */
  datatype Entry<V> =
    | Pending(kind: Kind, path: seq<string>)
    | Done(kind: Kind, pointer: string, value: Option<V>)

  /** The function returned by Add and Replace: it remembers the index, the kind and the path. */
  datatype Setter = Setter(index: nat, kind: Kind, path: seq<string>)

  class JSON6902<V> {
    var ops: seq<Entry<V>>

    constructor ()
      ensures ops == []
    {
      ops := [];
    }

    method Add(path: seq<string>) returns (f: Setter)
      modifies this
      ensures f == Setter(|old(ops)|, AddOp, path)
      ensures ops == old(ops) + [Pending(AddOp, path)]
    {
      f := Setter(|ops|, AddOp, path);
      ops := ops + [Pending(AddOp, path)];
    }

    method Replace(path: seq<string>) returns (f: Setter)
      modifies this
      ensures f == Setter(|old(ops)|, ReplaceOp, path)
      ensures ops == old(ops) + [Pending(ReplaceOp, path)]
    {
      f := Setter(|ops|, ReplaceOp, path);
      ops := ops + [Pending(ReplaceOp, path)];
    }

    method Remove(path: seq<string>)
      modifies this
      ensures ops == old(ops) + [Done(RemoveOp, PointerOf(path), None)]
    {
      var p := Pointer(path);
      ops := ops + [Done(RemoveOp, p, None)];
    }

    /** Calling the function returned by Add or Replace. */
    method Set(f: Setter, value: V)
      requires f.index < |ops|
      modifies this
      ensures ops == old(ops)[f.index := Done(f.kind, PointerOf(f.path), Some(value))]
    {
      var p := Pointer(f.path);
      ops := ops[f.index := Done(f.kind, p, Some(value))];
    }

    /** Runs a script of builder calls; a value call names an earlier Add or Replace by its position. */
    method Execute(script: seq<Command<V>>)
      requires ops == [] && WellFormed(script)
      modifies this
      ensures ops == Result(script)
    {
      var setters: seq<Setter> := [];
      for i := 0 to |script|
        invariant WellFormed(script[..i]) && ops == Result(script[..i])
        invariant |setters| == |Created(script[..i])| == |ops|
        invariant forall k | 0 <= k < |setters| ::
                    setters[k] == Setter(k, Created(script[..i])[k].kind, Created(script[..i])[k].path)
      {
        assert script[..i + 1][..i] == script[..i];
        WellFormedPrefix(script, i + 1);
        match script[i]
        case Create(kind, path) =>
          var f := Setter(|ops|, RemoveOp, path);
          match kind {
            case AddOp => f := Add(path);
            case ReplaceOp => f := Replace(path);
            case RemoveOp => Remove(path);
          }
          setters := setters + [f];
        case SetValue(k, value) =>
          Set(setters[k], value);
      }
      assert script[..|script|] == script;
    }
  }

  // Any interleaving of creations and value calls.

  datatype Command<V> =
    | Create(kind: Kind, path: seq<string>)
    | SetValue(creation: nat, value: V)

  /** The creations of a script, in order. */
  function Created<V>(script: seq<Command<V>>): seq<Command<V>>
    ensures forall c | c in Created(script) :: c.Create?
  {
    if script == [] then []
    else
      var last := script[|script| - 1];
      Created(script[..|script| - 1]) + if last.Create? then [last] else []
  }

  /** Values are given only to operations created before, and never to a remove. */
  predicate WellFormed<V>(script: seq<Command<V>>) {
    script == [] ||
    var init, last := script[..|script| - 1], script[|script| - 1];
    && WellFormed(init)
    && (last.SetValue? ==> last.creation < |Created(init)| && Created(init)[last.creation].kind != RemoveOp)
  }

  lemma {:induction false} WellFormedPrefix<V>(script: seq<Command<V>>, i: nat)
    requires WellFormed(script) && i <= |script|
    ensures WellFormed(script[..i])
  {
    if i < |script| {
      WellFormedPrefix(script[..|script| - 1], i);
      assert script[..|script| - 1][..i] == script[..i];
    } else {
      assert script[..i] == script;
    }
  }

  /** What the builder holds after a script, by the calls one after another. */
  function Result<V>(script: seq<Command<V>>): (ops: seq<Entry<V>>)
    requires WellFormed(script)
    ensures |ops| == |Created(script)|
  {
    if script == [] then []
    else
      var init, last := script[..|script| - 1], script[|script| - 1];
      match last
      case Create(kind, path) =>
        Result(init) + [if kind == RemoveOp then Done(RemoveOp, PointerOf(path), None) else Pending(kind, path)]
      case SetValue(k, value) =>
        var c := Created(init)[k];
        Result(init)[k := Done(c.kind, PointerOf(c.path), Some(value))]
  }

  /** The last value a script gives to creation `k`. */
  function LastValue<V>(script: seq<Command<V>>, k: nat): Option<V> {
    if script == [] then None
    else
      var last := script[|script| - 1];
      if last.SetValue? && last.creation == k then Some(last.value)
      else LastValue(script[..|script| - 1], k)
  }

  /**
   However creations and value calls are interleaved, the k-th entry of the patch is the k-th created
   operation, with its own path and the last value given to it.
   */
  lemma {:induction false} OperationsKeepTheirPlace<V>(script: seq<Command<V>>, k: nat)
    requires WellFormed(script) && k < |Created(script)|
    ensures var c := Created(script)[k];
            Result(script)[k] ==
            if c.kind == RemoveOp then Done(RemoveOp, PointerOf(c.path), None)
            else if LastValue(script, k).None? then Pending(c.kind, c.path)
            else Done(c.kind, PointerOf(c.path), LastValue(script, k))
  {
    var init, last := script[..|script| - 1], script[|script| - 1];
    if k < |Created(init)| {
      OperationsKeepTheirPlace(init, k);
    } else {
      NoEarlyValue(init, k);
    }
  }

  lemma {:induction false} NoEarlyValue<V>(script: seq<Command<V>>, k: nat)
    requires WellFormed(script) && k >= |Created(script)|
    ensures LastValue(script, k) == None
  {
    if script != [] {
      NoEarlyValue(script[..|script| - 1], k);
    }
  }

  /** So every operation of a finished patch addresses exactly the location it was created for. */
  lemma OperationsAddressTheirPath<V>(script: seq<Command<V>>, k: nat)
    requires WellFormed(script) && k < |Created(script)|
    requires Created(script)[k].kind != RemoveOp ==> LastValue(script, k).Some?
    ensures var e := Result(script)[k];
            e.Done? && e.kind == Created(script)[k].kind && Decode(e.pointer) == Some(Created(script)[k].path)
  {
    OperationsKeepTheirPlace(script, k);
    DecodePointer(Created(script)[k].path);
  }
}
