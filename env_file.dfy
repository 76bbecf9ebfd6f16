/**
 * Configuration: `load_env_from_file` writes the assignments of a `.env`
 * file into the process environment, and the start-up code then reads the
 * six required variables and refuses to go on when one is unset, malformed
 * or empty. The file is given as its lines (absent when it does not exist);
 * the environment is a map held by an object, as `os.environ` is.
 */
module EnvFile {
  import opened Wrappers
  import opened Text

  /** What `key, value = line.split('=', 1)` and the assignment make of one line. */
  datatype LineAction =
    | Skip
    | Assign(key: string, value: string)
    | NoSeparator            // the unpacking raises: the line has no '='
    | Rejected               // `putenv` raises: empty name or a NUL character

  /** `s.split(c, 1)`, when `c` occurs in `s`. */
  function SplitAtFirst(s: string, c: char): (r: Option<(string, string)>)
    ensures r.None? <==> c !in s
    ensures r.Some? ==> s == r.value.0 + [c] + r.value.1 && c !in r.value.0
  {
    if s == [] then None
    else if s[0] == c then
      assert s == [] + [c] + s[1..];
      Some(([], s[1..]))
    else
      match SplitAtFirst(s[1..], c)
      case None => None
      case Some((k, v)) =>
        assert s == [s[0]] + s[1..];
        ConsSplit(s[0], k, c, v);
        Some(([s[0]] + k, v))
  }

  lemma ConsSplit(h: char, k: string, c: char, v: string)
    ensures [h] + (k + [c] + v) == [h] + k + [c] + v
  {
  }

  const Nul: char := '\U{0}'

  function ClassifyLine(line: string): LineAction {
    var t := Strip(line);
    if t == [] || t[0] == '#' then Skip
    else
      match SplitAtFirst(t, '=')
      case None => NoSeparator
      case Some((k, v)) =>
        var key := Strip(k);
        var value := Strip(v);
        if key == [] || Nul in key || Nul in value then Rejected else Assign(key, value)
  }

  /** What each line of the file does, in order. */
  function Actions(lines: seq<string>): (acts: seq<LineAction>)
    ensures |acts| == |lines|
    ensures forall i :: 0 <= i < |lines| ==> acts[i] == ClassifyLine(lines[i])
  {
    if lines == [] then [] else [ClassifyLine(lines[0])] + Actions(lines[1..])
  }

  /** The line makes `load_env_from_file` raise. */
  predicate Raises(act: LineAction) {
    act.NoSeparator? || act.Rejected?
  }

  /** The environment after some lines, and the index of the line that raised, if one did. */
  datatype Applied = Applied(env: map<string, string>, raisedAt: Option<nat>)

  /** The effect of line `index` on what the lines before it did. */
  function Step(a: Applied, act: LineAction, index: nat): Applied {
    if a.raisedAt.Some? then a
    else
      match act
      case Skip => a
      case Assign(k, v) => Applied(a.env[k := v], None)
      case _ => Applied(a.env, Some(index))
  }

  /** The effect of the lines' actions on `env`, defined line by line from the front. */
  function Apply(env: map<string, string>, acts: seq<LineAction>): (a: Applied)
    ensures a.raisedAt.Some? ==> a.raisedAt.value < |acts|
  {
    if acts == [] then Applied(env, None)
    else Step(Apply(env, acts[..|acts| - 1]), acts[|acts| - 1], |acts| - 1)
  }

  /** The loading stops at the first line that raises, and only there. */
  lemma {:induction false} RaisedAtFirstBadLine(env: map<string, string>, acts: seq<LineAction>)
    ensures var a := Apply(env, acts);
      && (a.raisedAt.Some? ==> Raises(acts[a.raisedAt.value]))
      && (a.raisedAt.Some? ==> forall j :: 0 <= j < a.raisedAt.value ==> !Raises(acts[j]))
      && (a.raisedAt.None? ==> forall j :: 0 <= j < |acts| ==> !Raises(acts[j]))
  {
    if acts != [] {
      var init := acts[..|acts| - 1];
      RaisedAtFirstBadLine(env, init);
      assert forall j :: 0 <= j < |init| ==> init[j] == acts[j];
    }
  }

  lemma ApplyStep(env: map<string, string>, acts: seq<LineAction>, i: nat)
    requires i < |acts|
    ensures Apply(env, acts[..i + 1]) == Step(Apply(env, acts[..i]), acts[i], i)
  {
    assert acts[..i + 1][..i] == acts[..i];
  }

  datatype LoadResult = Loaded | NoFile | RaisedAt(line: nat)

  class Environ {
    var vars: map<string, string>

    constructor (initial: map<string, string>)
      ensures vars == initial
    {
      vars := initial;
    }

    /**
     * Reads the lines in order; a missing file leaves the environment alone,
     * and a line that raises stops the loop with the earlier assignments made.
     */
    method LoadEnvFromFile(file: Option<seq<string>>) returns (r: LoadResult)
      modifies this
      ensures file.None? ==> r == NoFile && vars == old(vars)
      ensures file.Some? ==>
        var a := Apply(old(vars), Actions(file.value));
        vars == a.env && r == (if a.raisedAt.Some? then RaisedAt(a.raisedAt.value) else Loaded)
    {
      if file.None? {
        return NoFile;
      }
      var acts := Actions(file.value);
      var env := vars;
      var i := 0;
      while i < |acts|
        invariant 0 <= i <= |acts|
        invariant Apply(old(vars), acts[..i]) == Applied(env, None)
      {
        LoadStep(old(vars), acts, i, env);
        match acts[i] {
          case Skip =>
          case Assign(key, value) =>
            env := env[key := value];
          case _ =>
            vars := env;
            return RaisedAt(i);
        }
        i := i + 1;
      }
      assert acts[..i] == acts;
      vars := env;
      return Loaded;
    }
  }

  /** What one more line does once the lines before it have loaded without raising. */
  lemma LoadStep(env0: map<string, string>, acts: seq<LineAction>, i: nat, env: map<string, string>)
    requires i < |acts| && Apply(env0, acts[..i]) == Applied(env, None)
    ensures match acts[i]
      case Skip => Apply(env0, acts[..i + 1]) == Applied(env, None)
      case Assign(k, v) => Apply(env0, acts[..i + 1]) == Applied(env[k := v], None)
      case _ => Apply(env0, acts) == Applied(env, Some(i))
  {
    ApplyStep(env0, acts, i);
    if Raises(acts[i]) {
      PrefixRaised(env0, acts, i + 1);
    }
  }

  /** Once a line raises, later lines change nothing. */
  lemma {:induction false} PrefixRaised(env: map<string, string>, acts: seq<LineAction>, n: nat)
    requires n <= |acts|
    requires Apply(env, acts[..n]).raisedAt.Some?
    ensures Apply(env, acts) == Apply(env, acts[..n])
    decreases |acts| - n
  {
    if n < |acts| {
      ApplyStep(env, acts, n);
      PrefixRaised(env, acts, n + 1);
    } else {
      assert acts[..n] == acts;
    }
  }

  // ---------------------------------------------------------------------------
  // What loading promises.

  predicate AssignsKey(act: LineAction, k: string) {
    act.Assign? && act.key == k
  }

  /** A key that no line assigns keeps its value, or stays unset. */
  lemma {:induction false} OtherKeysUnchanged(env: map<string, string>, acts: seq<LineAction>, k: string)
    requires forall j :: 0 <= j < |acts| ==> !AssignsKey(acts[j], k)
    ensures var a := Apply(env, acts);
      (k in a.env <==> k in env) && (k in env ==> a.env[k] == env[k])
  {
    if acts != [] {
      OtherKeysUnchanged(env, acts[..|acts| - 1], k);
    }
  }

  /** A key takes the value of its last assignment, when the whole file loads. */
  lemma {:induction false} LastAssignmentWins(env: map<string, string>, acts: seq<LineAction>, i: nat, k: string, v: string)
    requires i < |acts| && acts[i] == Assign(k, v)
    requires forall j :: i < j < |acts| ==> !AssignsKey(acts[j], k)
    requires Apply(env, acts).raisedAt.None?
    ensures k in Apply(env, acts).env && Apply(env, acts).env[k] == v
    decreases |acts|
  {
    var init := acts[..|acts| - 1];
    if i < |acts| - 1 {
      LastAssignmentWins(env, init, i, k, v);
    }
  }

  /** A line that raises leaves the assignments of the lines before it in place. */
  lemma KeepsEarlierAssignments(env: map<string, string>, acts: seq<LineAction>, i: nat)
    requires Apply(env, acts).raisedAt == Some(i)
    ensures Apply(env, acts).env == Apply(env, acts[..i]).env
    ensures Apply(env, acts[..i]).raisedAt.None?
  {
    RaisedAtFirstBadLine(env, acts);
    PrefixNotRaised(env, acts, i);
    ApplyStep(env, acts, i);
    PrefixRaised(env, acts, i + 1);
  }

  lemma PrefixNotRaised(env: map<string, string>, acts: seq<LineAction>, i: nat)
    requires i <= |acts|
    requires forall j :: 0 <= j < i ==> !Raises(acts[j])
    ensures Apply(env, acts[..i]).raisedAt.None?
  {
    RaisedAtFirstBadLine(env, acts[..i]);
  }

  /** `s.split(c, 1)` cuts at the first `c`, wherever `s` is built with one. */
  lemma {:induction false} SplitAtFirstOf(a: string, c: char, b: string)
    requires c !in a
    ensures SplitAtFirst(a + [c] + b, c) == Some((a, b))
  {
    if a == [] {
      assert ([] + [c] + b)[1..] == b;
    } else {
      assert (a + [c] + b)[1..] == a[1..] + [c] + b;
      SplitAtFirstOf(a[1..], c, b);
      assert [a[0]] + a[1..] == a;
    }
  }

  /** Neither starts nor ends with white space. */
  predicate Trimmed(s: string) {
    s == [] || (!IsSpace(s[0]) && !IsSpace(s[|s| - 1]))
  }

  /**
   * `KEY=value` is read back as that assignment whenever the key is a
   * non-empty trimmed name without '=', not starting with '#', and the value
   * is trimmed; the value may itself hold '=', since only the first one
   * separates.
   */
  lemma AssignmentRoundTrip(k: string, v: string)
    requires k != [] && Trimmed(k) && Trimmed(v) && '=' !in k && k[0] != '#'
    requires Nul !in k && Nul !in v
    ensures ClassifyLine(k + "=" + v) == Assign(k, v)
  {
    var t := k + "=" + v;
    assert t[0] == k[0];
    assert t[|t| - 1] == if v == [] then '=' else v[|v| - 1];
    StripTrimmed(t);
    SplitAtFirstOf(k, '=', v);
    StripTrimmed(k);
    StripTrimmed(v);
  }

  /**
   * A padded `KEY = value` line: the key and the value are stripped around
   * the first '=', and the assignment is made unless `putenv` refuses a NUL
   * in either of them.
   */
  lemma AssignmentPadded(w0: string, k: string, w1: string, w2: string, v: string, w3: string)
    requires AllSpace(w0) && AllSpace(w1) && AllSpace(w2) && AllSpace(w3)
    requires k != [] && Trimmed(k) && '=' !in k && k[0] != '#'
    requires Trimmed(v)
    ensures ClassifyLine(w0 + k + w1 + "=" + w2 + v + w3)
      == if Nul in k || Nul in v then Rejected else Assign(k, v)
  {
    var line := w0 + k + w1 + "=" + w2 + v + w3;
    var key := k + w1;
    KeyPart(k, w1);
    assert line == w0 + key + "=" + w2 + v + w3;
    if v == [] {
      EmptyValueLine(w0, key, w2, w3);
      StrippedAssignment(line, key, []);
    } else {
      ValueLine(w0, key, w2, v, w3);
      StrippedAssignment(line, key, w2 + v);
      StripPadded(w2, v, []);
      assert w2 + v + [] == w2 + v;
    }
  }

  /** The key with the white space after it: no '=', and it strips to the key. */
  lemma KeyPart(k: string, w1: string)
    requires AllSpace(w1) && k != [] && Trimmed(k) && '=' !in k
    ensures '=' !in k + w1 && Strip(k + w1) == k
  {
    forall j | 0 <= j < |w1| ensures w1[j] != '=' {
      assert IsSpace(w1[j]);
    }
    StripPadded([], k, w1);
    assert [] + k + w1 == k + w1;
  }

  lemma EmptyValueLine(w0: string, key: string, w2: string, w3: string)
    requires AllSpace(w0) && AllSpace(w2) && AllSpace(w3)
    requires key != [] && !IsSpace(key[0])
    ensures Strip(w0 + key + "=" + w2 + [] + w3) == key + ['='] + []
  {
    var t := key + ['='];
    assert w0 + key + "=" + w2 + [] + w3 == w0 + t + (w2 + w3);
    AllSpaceConcat(w2, w3);
    StripPadded(w0, t, w2 + w3);
    assert t == key + ['='] + [];
  }

  lemma ValueLine(w0: string, key: string, w2: string, v: string, w3: string)
    requires AllSpace(w0) && AllSpace(w3)
    requires key != [] && !IsSpace(key[0]) && v != [] && !IsSpace(v[|v| - 1])
    ensures Strip(w0 + key + "=" + w2 + v + w3) == key + ['='] + (w2 + v)
  {
    var t := key + ['='] + (w2 + v);
    assert w0 + key + "=" + w2 + v + w3 == w0 + t + w3;
    assert t[|t| - 1] == v[|v| - 1];
    StripPadded(w0, t, w3);
  }

  /** A line that strips to `key=rest`, with a key that does not start a comment. */
  lemma StrippedAssignment(line: string, key: string, rest: string)
    requires Strip(line) == key + ['='] + rest
    requires '=' !in key && key != [] && key[0] != '#'
    ensures ClassifyLine(line) == (
      if Strip(key) == [] || Nul in Strip(key) || Nul in Strip(rest) then Rejected
      else Assign(Strip(key), Strip(rest)))
  {
    SplitAtFirstOf(key, '=', rest);
  }

  lemma AllSpaceConcat(a: string, b: string)
    requires AllSpace(a) && AllSpace(b)
    ensures AllSpace(a + b)
  {
    assert forall j :: 0 <= j < |a + b| ==> (a + b)[j] == if j < |a| then a[j] else b[j - |a|];
  }

  /** A line whose first character after any white space is '#' is skipped, whatever follows. */
  lemma CommentSkipped(w: string, rest: string)
    requires AllSpace(w)
    ensures ClassifyLine(w + "#" + rest) == Skip
  {
    assert w + "#" + rest == w + ("#" + rest);
    StripAfterSpaces(w, "#" + rest);
  }

  /** A line of white space only is skipped. */
  lemma BlankSkipped(line: string)
    requires AllSpace(line)
    ensures ClassifyLine(line) == Skip
  {
    StripSpec(line);
  }

  /**
   * A line without '=' raises unless it is blank or a comment: whatever
   * white space surrounds it, its stripped text is not a comment and has no
   * separator.
   */
  lemma NoSeparatorRaises(w1: string, t: string, w2: string)
    requires AllSpace(w1) && AllSpace(w2)
    requires t != [] && Trimmed(t) && '=' !in t && t[0] != '#'
    ensures ClassifyLine(w1 + t + w2) == NoSeparator
  {
    StripPadded(w1, t, w2);
  }

  /**
   * A line whose first character after any white space is '=' has an empty
   * key once stripped, and raises, whatever follows.
   */
  lemma EmptyKeyRaises(w: string, rest: string)
    requires AllSpace(w)
    ensures ClassifyLine(w + "=" + rest) == Rejected
  {
    var line := w + "=" + rest;
    assert line == w + ("=" + rest);
    StripAfterSpaces(w, "=" + rest);
    var t := Strip(line);
    assert t == [] + ['='] + t[1..];
    SplitAtFirstOf([], '=', t[1..]);
    assert Strip([]) == [];
  }

  // ---------------------------------------------------------------------------
  // The required variables.

  datatype Var = ApiId | ApiHash | PhoneNumber | ChannelUsername | ClaudeApiKey | ReplicateApiToken

  function Name(v: Var): string {
    match v
    case ApiId => "API_ID"
    case ApiHash => "API_HASH"
    case PhoneNumber => "PHONE_NUMBER"
    case ChannelUsername => "CHANNEL_USERNAME"
    case ClaudeApiKey => "CLAUDE_API_KEY"
    case ReplicateApiToken => "REPLICATE_API_TOKEN"
  }

  /** The variables read after `API_ID`, in the order they are read. */
  const TextVars: seq<Var> := [ApiHash, PhoneNumber, ChannelUsername, ClaudeApiKey, ReplicateApiToken]

  /** `required_vars` */
  const RequiredVars: seq<Var> := [ApiId] + TextVars

  datatype Config = Config(
    apiId: int, apiHash: string, phoneNumber: string,
    channelUsername: string, claudeApiKey: string, replicateApiToken: string)

  /** The three `ValueError`s of start-up. */
  datatype ConfigError =
    | NotSet(name: Var)
    | NotAnInteger(text: string)
    | Missing(names: seq<Var>)

  predicate AllSet(env: map<string, string>, vars: seq<Var>) {
    forall v :: v in vars ==> Name(v) in env
  }

  /** The first of `vars` that is not in the environment. */
  function FirstUnset(env: map<string, string>, vars: seq<Var>): (r: Option<Var>)
    ensures r.None? <==> AllSet(env, vars)
    ensures r.Some? ==> r.value in vars && Name(r.value) !in env
  {
    if vars == [] then None
    else if Name(vars[0]) !in env then Some(vars[0])
    else
      FirstUnset(env, vars[1..])
  }

  /** The variable reported is the first unset one in reading order: every variable before it is set. */
  lemma {:induction false} FirstUnsetIsFirst(env: map<string, string>, vars: seq<Var>)
    ensures var r := FirstUnset(env, vars);
      r.Some? ==> exists i :: 0 <= i < |vars| && vars[i] == r.value && AllSet(env, vars[..i])
  {
    if vars == [] {
    } else if Name(vars[0]) !in env {
      assert vars[..0] == [];
    } else {
      var r := FirstUnset(env, vars[1..]);
      FirstUnsetIsFirst(env, vars[1..]);
      if r.Some? {
        var i :| 0 <= i < |vars| - 1 && vars[1..][i] == r.value && AllSet(env, vars[1..][..i]);
        assert vars[..i + 1] == [vars[0]] + vars[1..][..i];
        assert vars[i + 1] == r.value;
      }
    }
  }

  /** The value is false in Python: 0 for `API_ID`, "" for the others. */
  predicate Falsy(env: map<string, string>, apiId: int, v: Var)
    requires Name(v) in env
  {
    if v == ApiId then apiId == 0 else env[Name(v)] == []
  }

  /** `[var for var in required_vars if not globals().get(var)]` */
  function MissingVars(env: map<string, string>, apiId: int, vars: seq<Var>): (m: seq<Var>)
    requires AllSet(env, vars)
    ensures forall x :: x in m <==> x in vars && Falsy(env, apiId, x)
  {
    if vars == [] then []
    else (if Falsy(env, apiId, vars[0]) then [vars[0]] else []) + MissingVars(env, apiId, vars[1..])
  }

  /**
   * The variables are read in order; `API_ID` is converted with `int`
   * straight after it is read. Once all six are read, the false ones are
   * reported together.
   */
  function CheckConfig(env: map<string, string>): (r: Result<Config, ConfigError>)
    ensures r.Success? ==> AllSet(env, RequiredVars)
  {
    if Name(ApiId) !in env then Failure(NotSet(ApiId))
    else
      match ParseInt(env[Name(ApiId)])
      case None => Failure(NotAnInteger(env[Name(ApiId)]))
      case Some(id) =>
        match FirstUnset(env, TextVars)
        case Some(v) => Failure(NotSet(v))
        case None =>
          var missing := MissingVars(env, id, RequiredVars);
          if missing != [] then Failure(Missing(missing))
          else Success(Config(id, env[Name(ApiHash)], env[Name(PhoneNumber)], env[Name(ChannelUsername)],
                              env[Name(ClaudeApiKey)], env[Name(ReplicateApiToken)]))
  }

  /**
   * Start-up goes on exactly when all six variables are set, `API_ID` reads
   * as a non-zero integer and the other five are non-empty; the settings are
   * then the environment's values.
   */
  lemma CheckConfigSucceeds(env: map<string, string>)
    ensures CheckConfig(env).Success? <==>
      && AllSet(env, RequiredVars)
      && ParseInt(env[Name(ApiId)]).Some? && ParseInt(env[Name(ApiId)]).value != 0
      && forall v :: v in TextVars ==> env[Name(v)] != []
    ensures CheckConfig(env).Success? ==>
      var c := CheckConfig(env).value;
      && Some(c.apiId) == ParseInt(env[Name(ApiId)]) && c.apiHash == env[Name(ApiHash)]
      && c.phoneNumber == env[Name(PhoneNumber)] && c.channelUsername == env[Name(ChannelUsername)]
      && c.claudeApiKey == env[Name(ClaudeApiKey)] && c.replicateApiToken == env[Name(ReplicateApiToken)]
  {
    if AllSet(env, RequiredVars) && ParseInt(env[Name(ApiId)]).Some? {
      var id := ParseInt(env[Name(ApiId)]).value;
      assert AllSet(env, TextVars);
      var m := MissingVars(env, id, RequiredVars);
      if m != [] {
        assert m[0] in m;
      }
    }
  }
}
