/** The two decoders of Darwin's kern.procargs2 buffer: argc, the executable path,
    padding, argv, then the environment, each string NUL-terminated
    (plugins/nix_process_argv_darwin.go, plugins/process_env_darwin.go). */
module ProcArgs {
  import opened Common
  import opened Bytes

  type Text = seq<Byte>

  datatype Result<+T> = Ok(value: T) | Malformed

  // ------------------------------------------------------------------------- the buffer

  predicate NulFree(s: Text) {
    0 !in s
  }

  predicate AllNulFree(ss: seq<Text>) {
    forall k :: 0 <= k < |ss| ==> NulFree(ss[k])
  }

  function Terminated(ss: seq<Text>): Text {
    if ss == [] then [] else ss[0] + [0] + Terminated(ss[1..])
  }

  function Padding(n: nat): Text {
    if n == 0 then [] else [0] + Padding(n - 1)
  }

  function Encode(executable: Text, padding: nat, argv: seq<Text>, env: seq<Text>): Text {
    LittleEndian(|argv|, 4) + executable + [0] + Padding(padding) + Terminated(argv) + Terminated(env)
  }

  // --------------------------------------------------------------------- what is decoded

  function IndexNul(s: Text): (r: Option<nat>)
    ensures r.Some? ==> r.value < |s| && s[r.value] == 0 && NulFree(s[..r.value])
    ensures r.None? ==> NulFree(s)
  {
    if s == [] then None
    else if s[0] == 0 then Some(0)
    else
      var rest := IndexNul(s[1..]);
      if rest.Some? then
        assert s[..rest.value + 1] == [s[0]] + s[1..][..rest.value];
        Some(rest.value + 1)
      else assert s == [s[0]] + s[1..]; None
  }

  function SkipNuls(s: Text): (r: Text)
    ensures r == [] || r[0] != 0
  {
    if s != [] && s[0] == 0 then SkipNuls(s[1..]) else s
  }

  /** The argument strings, and the buffer after them. */
  function TakeArgs(s: Text, n: nat): Result<(seq<Text>, Text)>
    decreases n
  {
    if n == 0 then Ok(([], s))
    else
      var end := IndexNul(s);
      if end.None? then Malformed
      else
        var rest := TakeArgs(s[end.value + 1..], n - 1);
        if rest.Ok? then Ok(([s[..end.value]] + rest.value.0, rest.value.1)) else Malformed
  }

  /** The environment: strings up to the first empty or unfinished one. */
  function TakeEnv(s: Text): seq<Text>
    decreases |s|
  {
    var end := IndexNul(s);
    if end.None? || end.value == 0 then [] else [s[..end.value]] + TakeEnv(s[end.value + 1..])
  }

  const INT32 := 0x8000_0000

  /** The int32 argument count; negative counts are errors. */
  function ArgCount(raw: Text): int
    requires |raw| >= 4
  {
    var n := FromLittleEndian(raw[..4]);
    if n < INT32 then n else n - 2 * INT32
  }

  /** argc, and the buffer from the first byte after the padding. */
  function Header(raw: Text): Result<(nat, Text)> {
    if |raw| < 4 || !(0 <= ArgCount(raw) <= |raw| - 4) then Malformed
    else
      var end := IndexNul(raw[4..]);
      if end.None? then Malformed else Ok((ArgCount(raw), SkipNuls(raw[4..][end.value + 1..])))
  }

  /** argv, and the buffer after it. */
  function Divide(raw: Text): Result<(seq<Text>, Text)> {
    match Header(raw)
    case Ok(parts) => TakeArgs(parts.1, parts.0)
    case Malformed => Malformed
  }

  function Argv(raw: Text): Result<seq<Text>> {
    match Divide(raw) case Ok(parts) => Ok(parts.0) case Malformed => Malformed
  }

  function Env(raw: Text): Result<seq<Text>> {
    match Divide(raw) case Ok(parts) => Ok(TakeEnv(parts.1)) case Malformed => Malformed
  }

  // -------------------------------------------------------------------------- the loops

  /** What both decoders do first. */
  method ReadHeader(raw: Text) returns (r: Result<(nat, Text)>)
    ensures r == Header(raw)
  {
    if |raw| < 4 {
      return Malformed;
    }
    var argc := ArgCount(raw);
    if argc < 0 || argc > |raw| - 4 {
      return Malformed;
    }
    var cursor := raw[4..];
    var end := IndexNul(cursor);
    if end.None? {
      return Malformed;
    }
    cursor := cursor[end.value + 1..];
    ghost var padded := cursor;
    while |cursor| > 0 && cursor[0] == 0
      invariant SkipNuls(cursor) == SkipNuls(padded)
      decreases |cursor|
    {
      cursor := cursor[1..];
    }
    return Ok((argc, cursor));
  }

  method DecodeArgv(raw: Text) returns (r: Result<seq<Text>>)
    ensures r == Argv(raw)
  {
    var header := ReadHeader(raw);
    if header.Malformed? {
      return Malformed;
    }
    var argc, cursor := header.value.0, header.value.1;
    ghost var start := cursor;
    var argv: seq<Text> := [];
    Begins(start, argc);
    for index := 0 to argc
      invariant Continues(start, argc, argv, cursor, argc - index)
    {
      Advances(start, argc, argv, cursor, argc - index);
      var argumentEnd := IndexNul(cursor);
      if argumentEnd.None? {
        return Malformed;
      }
      argv := argv + [cursor[..argumentEnd.value]];
      cursor := cursor[argumentEnd.value + 1..];
    }
    Ends(start, argc, argv, cursor);
    return Ok(argv);
  }

  /** Taking n strings from start is having taken these and taking the rest. */
  ghost predicate Continues(start: Text, n: nat, taken: seq<Text>, cursor: Text, left: nat) {
    TakeArgs(start, n)
    == match TakeArgs(cursor, left)
       case Ok(rest) => Ok((taken + rest.0, rest.1))
       case Malformed => Malformed
  }

  lemma Begins(start: Text, n: nat)
    ensures Continues(start, n, [], start, n)
  {
    match TakeArgs(start, n)
    case Ok(rest) => assert [] + rest.0 == rest.0;
    case Malformed =>
  }

  lemma Advances(start: Text, n: nat, taken: seq<Text>, cursor: Text, left: nat)
    requires Continues(start, n, taken, cursor, left) && left > 0
    ensures match IndexNul(cursor)
            case None => TakeArgs(start, n) == Malformed
            case Some(end) => Continues(start, n, taken + [cursor[..end]], cursor[end + 1..], left - 1)
  {
    var end := IndexNul(cursor);
    if end.Some? {
      match TakeArgs(cursor[end.value + 1..], left - 1)
      case Ok(rest) =>
        assert taken + ([cursor[..end.value]] + rest.0) == taken + [cursor[..end.value]] + rest.0;
      case Malformed =>
    }
  }

  lemma Ends(start: Text, n: nat, taken: seq<Text>, cursor: Text)
    requires Continues(start, n, taken, cursor, 0)
    ensures TakeArgs(start, n) == Ok((taken, cursor))
  {
    assert taken + [] == taken;
  }

  method DecodeEnv(raw: Text) returns (r: Result<seq<Text>>)
    ensures r == Env(raw)
  {
    var header := ReadHeader(raw);
    if header.Malformed? {
      return Malformed;
    }
    var argc, cursor := header.value.0, header.value.1;
    ghost var start, argv: seq<Text> := cursor, [];
    Begins(start, argc);
    for i := 0 to argc
      invariant Continues(start, argc, argv, cursor, argc - i)
    {
      Advances(start, argc, argv, cursor, argc - i);
      var end := IndexNul(cursor);
      if end.None? {
        return Malformed;
      }
      argv := argv + [cursor[..end.value]];
      cursor := cursor[end.value + 1..];
    }
    Ends(start, argc, argv, cursor);
    var env := CollectEnv(cursor);
    return Ok(env);
  }

  method CollectEnv(s: Text) returns (env: seq<Text>)
    ensures env == TakeEnv(s)
  {
    env := [];
    var cursor := s;
    while |cursor| > 0
      invariant TakeEnv(s) == env + TakeEnv(cursor)
      decreases |cursor|
    {
      var end := IndexNul(cursor);
      if end.None? || end.value == 0 {
        break;
      }
      env := env + [cursor[..end.value]];
      cursor := cursor[end.value + 1..];
    }
    assert TakeEnv(cursor) == [];
  }

  // ------------------------------------------------------------------------- round trips

  lemma {:induction false} IndexNulAfter(s: Text, tail: Text)
    requires NulFree(s)
    ensures IndexNul(s + [0] + tail) == Some(|s|)
  {
    if s != [] {
      IndexNulAfter(s[1..], tail);
      assert (s + [0] + tail)[1..] == s[1..] + [0] + tail;
    }
  }

  lemma FirstOf(s: Text, tail: Text)
    requires NulFree(s)
    ensures var whole := s + [0] + tail;
      IndexNul(whole) == Some(|s|) && whole[..|s|] == s && whole[|s| + 1..] == tail
  {
    IndexNulAfter(s, tail);
  }

  lemma TakeFirstArg(s: Text, tail: Text, n: nat)
    requires NulFree(s)
    ensures TakeArgs(s + [0] + tail, n + 1)
         == match TakeArgs(tail, n) case Ok(rest) => Ok(([s] + rest.0, rest.1)) case Malformed => Malformed
  {
    FirstOf(s, tail);
  }

  lemma TakeFirstEnv(s: Text, tail: Text)
    requires NulFree(s)
    ensures TakeEnv(s + [0] + tail) == if s == [] then [] else [s] + TakeEnv(tail)
  {
    FirstOf(s, tail);
  }

  lemma {:induction false} TakeArgsTerminated(argv: seq<Text>, tail: Text)
    requires AllNulFree(argv)
    ensures TakeArgs(Terminated(argv) + tail, |argv|) == Ok((argv, tail))
  {
    if argv == [] {
      assert Terminated(argv) + tail == tail;
    } else {
      var after := Terminated(argv[1..]) + tail;
      assert Terminated(argv) + tail == argv[0] + [0] + after;
      TakeArgsTerminated(argv[1..], tail);
      TakeFirstArg(argv[0], after, |argv| - 1);
      assert argv == [argv[0]] + argv[1..];
    }
  }

  /** The environment up to its first empty string. */
  function UpToEmpty(env: seq<Text>): seq<Text> {
    if env == [] || env[0] == [] then [] else [env[0]] + UpToEmpty(env[1..])
  }

  lemma {:induction false} UpToEmptyIsWhole(env: seq<Text>)
    ensures UpToEmpty(env) == env <==> [] !in env
  {
    if env != [] {
      UpToEmptyIsWhole(env[1..]);
      assert env == [env[0]] + env[1..];
    }
  }

  lemma {:induction false} TakeEnvTerminated(env: seq<Text>)
    requires AllNulFree(env)
    ensures TakeEnv(Terminated(env)) == UpToEmpty(env)
  {
    if env != [] {
      TakeEnvTerminated(env[1..]);
      TakeFirstEnv(env[0], Terminated(env[1..]));
    }
  }

  // -------------------------------------------------------------------- the whole buffer

  /** A process the kernel can describe: NUL-free strings, and an int32 argument count. */
  predicate Encodable(executable: Text, argv: seq<Text>, env: seq<Text>) {
    NulFree(executable) && AllNulFree(argv) && AllNulFree(env) && |argv| < INT32
  }

  lemma {:induction false} TerminatedIsLong(ss: seq<Text>)
    ensures |Terminated(ss)| >= |ss|
    ensures ss != [] ==> Terminated(ss)[0] == if ss[0] == [] then 0 else ss[0][0]
  {
    if ss != [] {
      TerminatedIsLong(ss[1..]);
    }
  }

  /** The header of an encoding reads back, whatever follows it. */
  lemma HeaderReads(executable: Text, body: Text, argc: nat)
    requires NulFree(executable) && argc < INT32 && argc <= |body|
    ensures Header(LittleEndian(argc, 4) + executable + [0] + body) == Ok((argc, SkipNuls(body)))
  {
    var raw := LittleEndian(argc, 4) + executable + [0] + body;
    assert Power256(4) == 256 * (256 * (256 * Power256(1)));
    LittleEndianRoundTrip(argc, 4);
    assert raw[..4] == LittleEndian(argc, 4);
    assert raw[4..] == executable + [0] + body;
    FirstOf(executable, body);
  }

  /** An encoding reads as its strings after any padding. */
  lemma EncodedReads(executable: Text, padding: nat, argv: seq<Text>, env: seq<Text>)
    requires Encodable(executable, argv, env)
    ensures Divide(Encode(executable, padding, argv, env))
         == TakeArgs(SkipNuls(Terminated(argv) + Terminated(env)), |argv|)
  {
    var strings := Terminated(argv) + Terminated(env);
    var body := Padding(padding) + strings;
    TerminatedIsLong(argv);
    HeaderReads(executable, body, |argv|);
    SkipNulsThrough(padding, strings);
    Regroup(LittleEndian(|argv|, 4) + executable + [0], Padding(padding), Terminated(argv), Terminated(env));
  }

  lemma Regroup(a: Text, b: Text, c: Text, d: Text)
    ensures a + b + c + d == a + (b + (c + d))
  {
  }

  /** Both decoders split an encoded buffer where the encoder put the seam, provided
      what follows the padding does not itself begin with a NUL. */
  lemma DivideEncoded(executable: Text, padding: nat, argv: seq<Text>, env: seq<Text>)
    requires Encodable(executable, argv, env)
    requires (argv + env) == [] || (argv + env)[0] != []
    ensures Divide(Encode(executable, padding, argv, env)) == Ok((argv, Terminated(env)))
  {
    EncodedReads(executable, padding, argv, env);
    TerminatedIsLong(argv);
    TerminatedIsLong(env);
    var strings := Terminated(argv) + Terminated(env);
    assert strings == [] || strings[0] != 0;
    TakeArgsTerminated(argv, Terminated(env));
  }

  function Nuls(s: Text): nat {
    if s == [] then 0 else Nuls(s[1..]) + if s[0] == 0 then 1 else 0
  }

  lemma {:induction false} NulsAppend(s: Text, t: Text)
    ensures Nuls(s + t) == Nuls(s) + Nuls(t)
    ensures NulFree(s) ==> Nuls(s) == 0
  {
    if s == [] {
      assert s + t == t;
    } else {
      NulsAppend(s[1..], t);
      assert (s + t)[1..] == s[1..] + t;
    }
  }

  lemma {:induction false} NulsTerminated(ss: seq<Text>)
    requires AllNulFree(ss)
    ensures Nuls(Terminated(ss)) == |ss|
  {
    if ss != [] {
      NulsTerminated(ss[1..]);
      NulsAppend(ss[0] + [0], Terminated(ss[1..]));
      NulsAppend(ss[0], [0]);
    }
  }

  lemma NulsAfterFirst(s: Text)
    ensures var end := IndexNul(s); end.Some? ==> Nuls(s) == 1 + Nuls(s[end.value + 1..])
  {
    var end := IndexNul(s);
    if end.Some? {
      var first, after := s[..end.value], s[end.value + 1..];
      assert s == first + ([0] + after);
      NulsAppend(first, [0] + after);
      NulsAppend([0], after);
    }
  }

  lemma {:induction false} NulsTaken(s: Text, n: nat)
    ensures var taken := TakeArgs(s, n);
      taken.Ok? ==> |taken.value.0| == n && Nuls(s) == n + Nuls(taken.value.1)
    ensures TakeArgs(s, n).Ok? && n > 0 && s[0] != 0 ==> TakeArgs(s, n).value.0[0] != []
    decreases n
  {
    var end := IndexNul(s);
    if n > 0 && end.Some? {
      NulsAfterFirst(s);
      NulsTaken(s[end.value + 1..], n - 1);
    }
  }

  lemma {:induction false} EnvIsNonEmptyStrings(s: Text)
    ensures [] !in TakeEnv(s) && |TakeEnv(s)| <= Nuls(s)
    decreases |s|
  {
    var end := IndexNul(s);
    if end.Some? && end.value > 0 {
      NulsAfterFirst(s);
      EnvIsNonEmptyStrings(s[end.value + 1..]);
    }
  }

  lemma {:induction false} NulsSkipped(s: Text)
    ensures Nuls(SkipNuls(s)) <= Nuls(s)
    ensures s != [] && s[0] == 0 ==> Nuls(SkipNuls(s)) < Nuls(s)
  {
    if s != [] && s[0] == 0 {
      NulsSkipped(s[1..]);
    }
  }

  lemma {:induction false} SkipNulsThrough(n: nat, tail: Text)
    ensures SkipNuls(Padding(n) + tail) == SkipNuls(tail)
  {
    if n > 0 {
      SkipNulsThrough(n - 1, tail);
      assert (Padding(n) + tail)[1..] == Padding(n - 1) + tail;
    } else {
      assert Padding(n) + tail == tail;
    }
  }

  /** An argv whose first string is empty is swallowed as padding: every encoded
      string then moves up by at least one. */
  lemma LeadingEmptyIsLost(executable: Text, padding: nat, argv: seq<Text>, env: seq<Text>)
    requires Encodable(executable, argv, env) && argv != [] && argv[0] == []
    ensures var raw := Encode(executable, padding, argv, env);
      Argv(raw) != Ok(argv) && Env(raw) != Ok(env)
  {
    var strings := Terminated(argv) + Terminated(env);
    EncodedReads(executable, padding, argv, env);
    TerminatedIsLong(argv);
    NulsSkipped(strings);
    NulsAppend(Terminated(argv), Terminated(env));
    NulsTerminated(argv);
    NulsTerminated(env);
    NulsTaken(SkipNuls(strings), |argv|);
    if Divide(Encode(executable, padding, argv, env)).Ok? {
      EnvIsNonEmptyStrings(TakeArgs(SkipNuls(strings), |argv|).value.1);
    }
  }

  /** The argv decoder inverts the encoding exactly when argv does not open with an
      empty string. */
  lemma ArgvRoundTrip(executable: Text, padding: nat, argv: seq<Text>, env: seq<Text>)
    requires Encodable(executable, argv, env)
    ensures Argv(Encode(executable, padding, argv, env)) == Ok(argv) <==> argv == [] || argv[0] != []
  {
    if argv == [] {
      EncodedReads(executable, padding, argv, env);
    } else if argv[0] != [] {
      DivideEncoded(executable, padding, argv, env);
    } else {
      LeadingEmptyIsLost(executable, padding, argv, env);
    }
  }

  /** The environment decoder inverts it exactly when, besides, no environment string
      is empty. */
  lemma EnvRoundTrip(executable: Text, padding: nat, argv: seq<Text>, env: seq<Text>)
    requires Encodable(executable, argv, env)
    ensures Env(Encode(executable, padding, argv, env)) == Ok(env)
       <==> (argv == [] || argv[0] != []) && [] !in env
  {
    var raw := Encode(executable, padding, argv, env);
    if Divide(raw).Ok? {
      EnvIsNonEmptyStrings(Divide(raw).value.1);
    }
    if argv != [] && argv[0] == [] {
      LeadingEmptyIsLost(executable, padding, argv, env);
    } else if [] !in env {
      DivideEncoded(executable, padding, argv, env);
      TakeEnvTerminated(env);
      UpToEmptyIsWhole(env);
    }
  }

  // -------------------------------------------------------------------- truncated buffers

  lemma {:induction false} IndexNulOfPrefix(s: Text, t: Text)
    requires s <= t
    ensures IndexNul(s).Some? ==> IndexNul(t) == IndexNul(s)
  {
    if s != [] {
      IndexNulOfPrefix(s[1..], t[1..]);
    }
  }

  lemma TailOfPrefix(s: Text, t: Text, k: nat)
    requires s <= t && k < |s|
    ensures s[..k] == t[..k] && s[k + 1..] <= t[k + 1..]
  {
  }

  lemma {:induction false} SkipNulsOfPrefix(s: Text, t: Text)
    requires s <= t
    ensures SkipNuls(s) <= SkipNuls(t)
  {
    if s != [] && s[0] == 0 {
      SkipNulsOfPrefix(s[1..], t[1..]);
    }
  }

  lemma {:induction false} TakeArgsOfPrefix(s: Text, t: Text, n: nat)
    requires s <= t
    ensures var part, whole := TakeArgs(s, n), TakeArgs(t, n);
      part.Ok? ==> whole.Ok? && part.value.0 == whole.value.0 && part.value.1 <= whole.value.1
    decreases n
  {
    IndexNulOfPrefix(s, t);
    var end := IndexNul(s);
    if n > 0 && end.Some? {
      TailOfPrefix(s, t, end.value);
      TakeArgsOfPrefix(s[end.value + 1..], t[end.value + 1..], n - 1);
    }
  }

  lemma {:induction false} TakeEnvOfPrefix(s: Text, t: Text)
    requires s <= t
    ensures TakeEnv(s) <= TakeEnv(t)
    decreases |s|
  {
    IndexNulOfPrefix(s, t);
    var end := IndexNul(s);
    if end.Some? && end.value > 0 {
      TailOfPrefix(s, t, end.value);
      TakeEnvOfPrefix(s[end.value + 1..], t[end.value + 1..]);
    }
  }

  /** A truncated buffer that still decodes gives the same argv and the first strings
      of the same environment. */
  lemma TruncatedBufferHoldsAPrefix(raw: Text, n: nat)
    requires n <= |raw| && Argv(raw[..n]).Ok?
    ensures Argv(raw) == Argv(raw[..n])
    ensures Env(raw).Ok? && Env(raw[..n]).Ok? && Env(raw[..n]).value <= Env(raw).value
  {
    HeaderOfPrefix(raw, n);
    TakeArgsOfPrefix(Header(raw[..n]).value.1, Header(raw).value.1, Header(raw).value.0);
    TakeEnvOfPrefix(Divide(raw[..n]).value.1, Divide(raw).value.1);
  }

  lemma HeaderOfPrefix(raw: Text, n: nat)
    requires n <= |raw| && Header(raw[..n]).Ok?
    ensures Header(raw).Ok? && Header(raw).value.0 == Header(raw[..n]).value.0
    ensures Header(raw[..n]).value.1 <= Header(raw).value.1
  {
    var part := raw[..n];
    assert part[..4] == raw[..4];
    IndexNulOfPrefix(part[4..], raw[4..]);
    var end := IndexNul(part[4..]).value;
    TailOfPrefix(part[4..], raw[4..], end);
    SkipNulsOfPrefix(part[4..][end + 1..], raw[4..][end + 1..]);
  }
}
