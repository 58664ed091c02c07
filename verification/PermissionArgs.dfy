/** Normalising the permission flags of the Claude command line. */
module PermissionArgs {
  import opened Common
  import opened Js

  const LEGACY_SKIP := "--dangerously-skip-permissions"
  const MODE_ARG := "--permission-mode"
  const MODE_PREFIX := "--permission-mode="
  const BYPASS := "bypassPermissions"

  /** How the loop reads the argument list: the token after a mode flag is its value, whatever it looks like. */
  datatype Token = Legacy | Mode(value: Option<string>) | ModeEquals(arg: string) | Plain(arg: string)

  function Width(t: Token): nat {
    if t.Mode? && t.value.Some? then 2 else 1
  }

  function FirstToken(args: seq<string>): (t: Token)
    requires args != []
    ensures Width(t) <= |args|
  {
    if args[0] == LEGACY_SKIP then Legacy
    else if args[0] == MODE_ARG then Mode(if |args| > 1 then Some(args[1]) else None)
    else if StartsWith(args[0], MODE_PREFIX) then ModeEquals(args[0])
    else Plain(args[0])
  }

  function Tokens(args: seq<string>): seq<Token> {
    if args == [] then [] else [FirstToken(args)] + Tokens(args[Width(FirstToken(args))..])
  }

  function Render(t: Token): seq<string> {
    match t
    case Legacy => [LEGACY_SKIP]
    case Mode(value) => [MODE_ARG] + if value.Some? then [value.value] else []
    case ModeEquals(arg) => [arg]
    case Plain(arg) => [arg]
  }

  function RenderAll(tokens: seq<Token>): seq<string> {
    if tokens == [] then [] else Render(tokens[0]) + RenderAll(tokens[1..])
  }

  /** The permission mode that a token names, if it names one. */
  predicate NamesMode(t: Token) {
    t.Mode? || t.ModeEquals?
  }

  predicate HasMode(tokens: seq<Token>) {
    exists i :: 0 <= i < |tokens| && NamesMode(tokens[i])
  }

  predicate HasLegacy(tokens: seq<Token>) {
    Legacy in tokens
  }

  function WithoutLegacy(tokens: seq<Token>): seq<Token> {
    if tokens == [] then []
    else (if tokens[0].Legacy? then [] else [tokens[0]]) + WithoutLegacy(tokens[1..])
  }

  /** The explicit modes in order if there are any, else the bypass mode if the legacy flag was seen. */
  function EffectiveModes(tokens: seq<Token>): seq<Token> {
    if HasMode(tokens) then ModesOf(tokens) else if HasLegacy(tokens) then [Mode(Some(BYPASS))] else []
  }

  function ModesOf(tokens: seq<Token>): seq<Token> {
    if tokens == [] then []
    else (if NamesMode(tokens[0]) then [tokens[0]] else []) + ModesOf(tokens[1..])
  }

  function NormalizedTokens(tokens: seq<Token>): seq<Token> {
    WithoutLegacy(tokens) + if HasLegacy(tokens) && !HasMode(tokens) then [Mode(Some(BYPASS))] else []
  }

  function Normalized(args: seq<string>): seq<string> {
    RenderAll(NormalizedTokens(Tokens(args)))
  }

  method NormalizeClaudePermissionArgs(args: Option<seq<string>>) returns (r: Option<seq<string>>)
    ensures r == if args.None? then None else Some(Normalized(args.value))
  {
    if args.None? {
      return None;
    }
    var list := args.value;
    var normalized: seq<string> := [];
    var sawLegacySkip, hasPermissionMode := false, false;
    ghost var done: seq<Token>, all := [], Tokens(list);
    var i := 0;
    assert list[0..] == list && [] + all == all;
    while i < |list|
      invariant i <= |list|
      invariant all == done + Tokens(list[i..])
      invariant LoopState(done, normalized, sawLegacySkip, hasPermissionMode)
    {
      ghost var token := FirstToken(list[i..]);
      NextToken(list, i, done, all);
      normalized, sawLegacySkip, hasPermissionMode, i := Turn(list, i, normalized, sawLegacySkip, hasPermissionMode,
          done);
      done := done + [token];
    }
    assert done + [] == done;
    AppendBypass(list, done, normalized, sawLegacySkip, hasPermissionMode);
    if sawLegacySkip && !hasPermissionMode {
      normalized := normalized + [MODE_ARG, BYPASS];
    }
    return Some(normalized);
  }

  lemma AppendBypass(list: seq<string>, done: seq<Token>, normalized: seq<string>, sawLegacySkip: bool,
                     hasPermissionMode: bool)
    requires Tokens(list) == done && LoopState(done, normalized, sawLegacySkip, hasPermissionMode)
    ensures Normalized(list) == if sawLegacySkip
            && !hasPermissionMode then normalized + [MODE_ARG, BYPASS] else normalized
  {
    if sawLegacySkip && !hasPermissionMode {
      RenderSnoc(WithoutLegacy(done), Mode(Some(BYPASS)));
    } else {
      assert WithoutLegacy(done) + [] == WithoutLegacy(done);
    }
  }

  ghost predicate LoopState(done: seq<Token>, normalized: seq<string>, sawLegacySkip: bool, hasPermissionMode: bool) {
    normalized == RenderAll(WithoutLegacy(done)) && sawLegacySkip == HasLegacy(done)
        && hasPermissionMode == HasMode(done)
  }

  lemma NextToken(list: seq<string>, i: nat, done: seq<Token>, all: seq<Token>)
    requires i < |list| && all == done + Tokens(list[i..])
    ensures var token := FirstToken(list[i..]);
            i + Width(token) <= |list| && all == done + [token] + Tokens(list[i + Width(token)..])
  {
    var rest := list[i..];
    var token := FirstToken(rest);
    TokensFirst(rest);
    DropTwice(list, i, Width(token));
    Associate(done, [token], Tokens(rest[Width(token)..]));
  }

  lemma DropTwice(list: seq<string>, i: nat, w: nat)
    requires i + w <= |list|
    ensures list[i..][w..] == list[i + w..]
  {
  }

  lemma TokensFirst(args: seq<string>)
    requires args != []
    ensures Width(FirstToken(args)) <= |args|
    ensures Tokens(args) == [FirstToken(args)] + Tokens(args[Width(FirstToken(args))..])
  {
  }

  /** One turn of the loop: the output, the two flags and the next position. */
  method Turn(list: seq<string>, i: nat, normalized: seq<string>, sawLegacySkip: bool, hasPermissionMode: bool,
              ghost done: seq<Token>)
    returns (output: seq<string>, saw: bool, has: bool, next: nat)
    requires i < |list| && LoopState(done, normalized, sawLegacySkip, hasPermissionMode)
    ensures LoopState(done + [FirstToken(list[i..])], output, saw, has)
    ensures next == i + Width(FirstToken(list[i..]))
  {
    output, saw, has := normalized, sawLegacySkip, hasPermissionMode;
    var arg := list[i];
    Snoc(done, FirstToken(list[i..]));
    if arg == LEGACY_SKIP {
      saw := true;
      assert output + [] == output;
      return output, saw, has, i + 1;
    }
    if arg == MODE_ARG {
      has := true;
      output := output + [arg];
      if i + 1 < |list| {
        output := output + [list[i + 1]];
        assert output == normalized + [arg, list[i + 1]];
        return output, saw, has, i + 2;
      }
      assert output == normalized + ([MODE_ARG] + []);
      return output, saw, has, i + 1;
    }
    if StartsWith(arg, MODE_PREFIX) {
      has := true;
    }
    output := output + [arg];
    next := i + 1;
  }

  lemma {:induction false} RenderSnoc(tokens: seq<Token>, t: Token)
    ensures RenderAll(tokens + [t]) == RenderAll(tokens) + Render(t)
  {
    if tokens == [] {
      assert RenderAll([t]) == Render(t) + RenderAll([t][1..]) == Render(t) + [];
      assert [] + Render(t) == Render(t) + [] == Render(t);
    } else {
      var first, rest := Render(tokens[0]), RenderAll(tokens[1..]);
      RenderSnoc(tokens[1..], t);
      assert (tokens + [t])[1..] == tokens[1..] + [t];
      assert first + (rest + Render(t)) == first + rest + Render(t);
    }
  }

  lemma {:induction false} WithoutLegacySnoc(tokens: seq<Token>, t: Token)
    ensures WithoutLegacy(tokens + [t]) == WithoutLegacy(tokens) + if t.Legacy? then [] else [t]
  {
    if tokens != [] {
      WithoutLegacySnoc(tokens[1..], t);
      assert (tokens + [t])[1..] == tokens[1..] + [t];
    }
  }

  lemma Snoc(tokens: seq<Token>, t: Token)
    ensures RenderAll(WithoutLegacy(tokens + [t]))
            == RenderAll(WithoutLegacy(tokens)) + if t.Legacy? then [] else Render(t)
    ensures HasLegacy(tokens + [t]) <==> HasLegacy(tokens) || t.Legacy?
    ensures HasMode(tokens + [t]) <==> HasMode(tokens) || NamesMode(t)
  {
    WithoutLegacySnoc(tokens, t);
    if t.Legacy? {
      assert WithoutLegacy(tokens) + [] == WithoutLegacy(tokens);
    } else {
      RenderSnoc(WithoutLegacy(tokens), t);
    }
    assert forall i | 0 <= i < |tokens| :: (tokens + [t])[i] == tokens[i];
    assert (tokens + [t])[|tokens|] == t;
    if HasMode(tokens) {
      var i :| 0 <= i < |tokens| && NamesMode(tokens[i]);
      assert NamesMode((tokens + [t])[i]);
    }
  }

  // ----- rendering and reading back

  /** Tokens as reading produces them: texts of the right form, and a mode without a value only at the end. */
  ghost predicate Readable(tokens: seq<Token>) {
    forall i | 0 <= i < |tokens| :: ReadableToken(tokens[i]) && (tokens[i] == Mode(None) ==> i == |tokens| - 1)
  }

  ghost predicate ReadableToken(t: Token) {
    match t
    case Legacy => true
    case Mode(value) => true
    case ModeEquals(arg) => arg != LEGACY_SKIP && arg != MODE_ARG && StartsWith(arg, MODE_PREFIX)
    case Plain(arg) => arg != LEGACY_SKIP && arg != MODE_ARG && !StartsWith(arg, MODE_PREFIX)
  }

  lemma {:induction false} TokensReadable(args: seq<string>)
    ensures Readable(Tokens(args)) && RenderAll(Tokens(args)) == args
  {
    if args != [] {
      var t := FirstToken(args);
      TokensReadable(args[Width(t)..]);
      assert args == Render(t) + args[Width(t)..];
      assert Tokens(args)[1..] == Tokens(args[Width(t)..]);
    }
  }

  lemma {:induction false} RenderThenRead(tokens: seq<Token>)
    requires Readable(tokens)
    ensures Tokens(RenderAll(tokens)) == tokens
  {
    if tokens != [] {
      var t, rest := tokens[0], tokens[1..];
      assert forall i | 0 <= i < |rest| :: rest[i] == tokens[i + 1];
      RenderThenRead(rest);
      assert t == Mode(None) ==> rest == [];
      FirstRendered(t, RenderAll(rest));
    }
  }

  lemma FirstRendered(t: Token, rest: seq<string>)
    requires ReadableToken(t) && (t == Mode(None) ==> rest == [])
    ensures Render(t) + rest != [] && FirstToken(Render(t) + rest) == t && (Render(t) + rest)[Width(t)..] == rest
  {
  }

  lemma {:induction false} WithoutLegacyHas(tokens: seq<Token>, t: Token)
    ensures t in WithoutLegacy(tokens) <==> t in tokens && !t.Legacy?
  {
    if tokens != [] {
      WithoutLegacyHas(tokens[1..], t);
      assert t in tokens <==> t == tokens[0] || t in tokens[1..];
    }
  }

  lemma {:induction false} WithoutLegacyModes(tokens: seq<Token>)
    ensures ModesOf(WithoutLegacy(tokens)) == ModesOf(tokens)
  {
    if tokens != [] {
      WithoutLegacyModes(tokens[1..]);
      var kept := WithoutLegacy(tokens[1..]);
      assert ([tokens[0]] + kept)[1..] == kept && [] + kept == kept;
      assert [] + ModesOf(tokens[1..]) == ModesOf(tokens[1..]);
    }
  }

  lemma {:induction false} NothingToDrop(tokens: seq<Token>)
    requires !HasLegacy(tokens)
    ensures WithoutLegacy(tokens) == tokens
  {
    if tokens != [] {
      assert tokens == [tokens[0]] + tokens[1..] && !tokens[0].Legacy?;
      NothingToDrop(tokens[1..]);
    }
  }

  lemma ReadableTail(tokens: seq<Token>)
    requires tokens != [] && Readable(tokens)
    ensures Readable(tokens[1..]) && ReadableToken(tokens[0])
    ensures tokens[0] == Mode(None) ==> tokens[1..] == []
  {
    assert forall i | 0 <= i < |tokens[1..]| :: tokens[1..][i] == tokens[i + 1];
  }

  lemma {:induction false} WithoutLegacyReadable(tokens: seq<Token>)
    requires Readable(tokens)
    ensures Readable(WithoutLegacy(tokens))
  {
    if tokens != [] {
      ReadableTail(tokens);
      WithoutLegacyReadable(tokens[1..]);
      assert tokens[1..] == [] ==> WithoutLegacy(tokens[1..]) == [];
    }
  }

  lemma {:induction false} NoModes(tokens: seq<Token>)
    ensures HasMode(tokens) <==> ModesOf(tokens) != []
  {
    if tokens != [] {
      NoModes(tokens[1..]);
      assert forall i | 0 <= i < |tokens[1..]| :: tokens[1..][i] == tokens[i + 1];
      if HasMode(tokens[1..]) {
        var i :| 0 <= i < |tokens[1..]| && NamesMode(tokens[1..][i]);
        assert NamesMode(tokens[i + 1]);
      }
      if HasMode(tokens) {
        var i :| 0 <= i < |tokens| && NamesMode(tokens[i]);
        assert i > 0 ==> NamesMode(tokens[1..][i - 1]);
      }
    }
  }

  // ----- the results

  /** Reading the normalised list gives the old tokens without the legacy flag, in order, plus the bypass mode at the
      end when it is needed: values stay paired with their flags. */
  lemma TokensOfNormalized(args: seq<string>)
    ensures Tokens(Normalized(args)) == NormalizedTokens(Tokens(args))
  {
    var tokens := Tokens(args);
    TokensReadable(args);
    WithoutLegacyReadable(tokens);
    var kept := WithoutLegacy(tokens);
    if HasLegacy(tokens) && !HasMode(tokens) {
      forall i | 0 <= i < |kept| ensures kept[i] != Mode(None) {
        WithoutLegacyHas(tokens, kept[i]);
        NoModeToken(tokens, kept[i]);
      }
    } else {
      assert kept + [] == kept;
    }
    RenderThenRead(NormalizedTokens(tokens));
  }

  lemma NoModeToken(tokens: seq<Token>, t: Token)
    requires !HasMode(tokens) && t in tokens
    ensures !NamesMode(t)
  {
    var i :| 0 <= i < |tokens| && tokens[i] == t;
    assert !NamesMode(tokens[i]);
  }

  lemma {:induction false} ModesSnoc(tokens: seq<Token>, t: Token)
    ensures ModesOf(tokens + [t]) == ModesOf(tokens) + if NamesMode(t) then [t] else []
  {
    if tokens != [] {
      ModesSnoc(tokens[1..], t);
      assert (tokens + [t])[1..] == tokens[1..] + [t];
    }
  }

  /** Afterwards no legacy flag is left outside the value slot of a mode flag, and the effective modes are the same. */
  lemma NormalizedMeansTheSame(args: seq<string>)
    ensures !HasLegacy(Tokens(Normalized(args)))
    ensures EffectiveModes(Tokens(Normalized(args))) == EffectiveModes(Tokens(args))
  {
    var tokens := Tokens(args);
    var kept := WithoutLegacy(tokens);
    TokensOfNormalized(args);
    WithoutLegacyHas(tokens, Legacy);
    WithoutLegacyModes(tokens);
    NoModes(tokens);
    NoModes(kept);
    ModesSnoc(kept, Mode(Some(BYPASS)));
    NoModes(NormalizedTokens(tokens));
    assert kept + [] == kept;
  }

  /** Normalising twice changes nothing more. */
  lemma NormalizedTwice(args: seq<string>)
    ensures Normalized(Normalized(args)) == Normalized(args)
  {
    NormalizedMeansTheSame(args);
    TokensOfNormalized(args);
    var tokens := Tokens(Normalized(args));
    NothingToDrop(tokens);
    assert tokens + [] == tokens;
    TokensReadable(Normalized(args));
  }

  // ----- what the tokens are, and what becomes of them

  /** The argument that a token is read from: the legacy flag; the mode flag, which takes the next argument, if any, as
      its value; the mode flag with its value after an equals sign; or any other argument. */
  lemma FirstTokenMeans(args: seq<string>)
    requires args != []
    ensures FirstToken(args) == Legacy <==> args[0] == "--dangerously-skip-permissions"
    ensures FirstToken(args).Mode? <==> args[0] == "--permission-mode"
    ensures FirstToken(args).Mode? ==> FirstToken(args).value == if |args| > 1 then Some(args[1]) else None
    ensures FirstToken(args).ModeEquals? <==> "--permission-mode=" <= args[0]
    ensures FirstToken(args).ModeEquals? || FirstToken(args).Plain? ==> FirstToken(args).arg == args[0]
  {
    assert "--permission-mode="[2] == 'p' && "--dangerously-skip-permissions"[2] == 'd';
    assert |"--permission-mode="| == |"--permission-mode"| + 1;
  }

  /** Some argument names a permission mode, with the value beside it or after an equals sign. */
  ghost predicate NamesExplicitMode(tokens: seq<Token>) {
    exists i :: 0 <= i < |tokens| && (tokens[i].Mode? || tokens[i].ModeEquals?)
  }

  lemma HasModeIff(tokens: seq<Token>)
    ensures HasMode(tokens) <==> NamesExplicitMode(tokens)
  {
    if NamesExplicitMode(tokens) {
      var i :| 0 <= i < |tokens| && (tokens[i].Mode? || tokens[i].ModeEquals?);
      assert NamesMode(tokens[i]);
    }
  }

  /** The bypass mode is appended exactly when the legacy flag is there and no mode is named; otherwise the arguments
      are only rid of the legacy flag. */
  lemma BypassIff(args: seq<string>)
    ensures var tokens := Tokens(args);
            Tokens(Normalized(args)) ==
            if Legacy in tokens && !NamesExplicitMode(tokens)
              then WithoutLegacy(tokens) + [Mode(Some("bypassPermissions"))] else WithoutLegacy(tokens)
  {
    var kept := WithoutLegacy(Tokens(args));
    TokensOfNormalized(args);
    HasModeIff(Tokens(args));
    assert kept + [] == kept;
  }

  /** The legacy flag goes, and every other token stays in its place. */
  lemma WithoutLegacyLaws(left: seq<Token>, right: seq<Token>, t: Token)
    ensures WithoutLegacy(left + right) == WithoutLegacy(left) + WithoutLegacy(right)
    ensures WithoutLegacy([t]) == if t == Legacy then [] else [t]
  {
    WithoutLegacyConcat(left, right);
    WithoutLegacySnoc([], t);
    assert [] + [t] == [t];
  }

  lemma {:induction false} WithoutLegacyConcat(left: seq<Token>, right: seq<Token>)
    ensures WithoutLegacy(left + right) == WithoutLegacy(left) + WithoutLegacy(right)
  {
    if right == [] {
      assert left + right == left;
    } else {
      var init, last := right[..|right| - 1], right[|right| - 1];
      WithoutLegacyConcat(left, init);
      WithoutLegacySnoc(left + init, last);
      WithoutLegacySnoc(init, last);
      assert left + right == left + init + [last] && right == init + [last];
    }
  }

  /** The legacy flag and then one more argument that names a mode after an equals sign: only the legacy flag goes. */
  lemma ExplicitModeWins(mode: string)
    ensures Normalized(["--dangerously-skip-permissions", "--permission-mode=" + mode]) == ["--permission-mode=" + mode]
  {
    var arg := "--permission-mode=" + mode;
    var args := ["--dangerously-skip-permissions", arg];
    FirstTokenMeans(args);
    FirstTokenMeans([arg]);
    assert args[1..] == [arg] && [arg][1..] == [];
    assert Tokens([arg]) == [ModeEquals(arg)] + Tokens([]);
    ExplicitTokens(args, arg);
  }

  lemma ExplicitTokens(args: seq<string>, arg: string)
    requires Tokens(args) == [Legacy, ModeEquals(arg)]
    ensures Normalized(args) == [arg]
  {
    var tokens, t := Tokens(args), ModeEquals(arg);
    assert tokens[1].ModeEquals?;
    HasModeIff(tokens);
    assert tokens == [Legacy] + [t];
    WithoutLegacyLaws([Legacy], [t], Legacy);
    WithoutLegacyLaws([Legacy], [t], t);
    assert NormalizedTokens(tokens) == [t];
    RenderSnoc([], t);
    assert [] + [t] == [t];
  }
}
