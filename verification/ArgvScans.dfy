/** The argument scans: literal removed spellings, and the version selectors of `keadm init`. */
module ArgvScans {
  import opened Common
  import opened GoStrings

  datatype Presence = Presence(present: bool, resolved: bool)

  const UNRESOLVED: Presence := Presence(false, false)

  // ---------- the shared scan

  predicate IsBare(token: string) {
    token == "-" || token == "--"
  }

  /** The token, or the name of a long option with a value, is a removed spelling. */
  predicate Spells(token: string, removed: set<string>) {
    token in removed || (!IsBare(token) && HasPrefix(token, "--") && Cut(token, '=').value.Some? && Cut(token, '=').name in removed)
  }

  /** The token cannot hide a removed spelling. */
  predicate Resolvable(token: string, removed: set<string>) {
    || token in removed
    || !HasPrefix(token, "-")
    || (!IsBare(token) && (HasPrefix(token, "--") || |token| <= 2))
  }

  ghost predicate AllResolvable(tokens: seq<string>, removed: set<string>) {
    forall i :: 0 <= i < |tokens| ==> Resolvable(tokens[i], removed)
  }

  ghost predicate SomeSpells(tokens: seq<string>, removed: set<string>) {
    exists i :: 0 <= i < |tokens| && Spells(tokens[i], removed)
  }

  /** `scanRemovedArgvSpellings`: resolved exactly when no token can hide a spelling, and then present exactly when one occurs. */
  method ScanRemoved(tokens: seq<string>, removed: set<string>) returns (r: Presence)
    ensures r.resolved <==> AllResolvable(tokens, removed)
    ensures r.present <==> AllResolvable(tokens, removed) && SomeSpells(tokens, removed)
  {
    var present := false;
    for i := 0 to |tokens|
      invariant forall j :: 0 <= j < i ==> Resolvable(tokens[j], removed)
      invariant present <==> exists j :: 0 <= j < i && Spells(tokens[j], removed)
    {
      var token := tokens[i];
      if token in removed {
        present := true;
      } else if HasPrefix(token, "-") {
        if token == "-" || token == "--" {
          return UNRESOLVED;
        }
        if HasPrefix(token, "--") {
          var halves := Cut(token, '=');
          if halves.value.Some? && halves.name in removed {
            present := true;
          }
        } else if |token| > 2 {
          return UNRESOLVED;
        }
      }
    }
    return Presence(present, true);
  }

  /** What the scan finds does not depend on the order of the arguments. */
  lemma OrderIndependent(a: seq<string>, b: seq<string>, removed: set<string>)
    requires multiset(a) == multiset(b)
    ensures AllResolvable(a, removed) <==> AllResolvable(b, removed)
    ensures SomeSpells(a, removed) <==> SomeSpells(b, removed)
  {
    SameTokens(a, b);
    SameTokens(b, a);
  }

  lemma SameTokens(a: seq<string>, b: seq<string>)
    requires multiset(a) == multiset(b)
    ensures forall i :: 0 <= i < |a| ==> exists j :: 0 <= j < |b| && b[j] == a[i]
  {
    forall i | 0 <= i < |a| ensures exists j :: 0 <= j < |b| && b[j] == a[i] {
      assert a[i] in multiset(a);
      assert a[i] in multiset(b);
      assert a[i] in b;
    }
  }

  // ---------- the SPIRE scan

  const TTL: set<string> := {"-ttl", "--ttl"}

  predicate SpireSpells(token: string) {
    token in TTL || (HasPrefix(token, "-") && !IsBare(token) && Cut(token, '=').value.Some? && Cut(token, '=').name in TTL)
  }

  ghost predicate NoBare(tokens: seq<string>) {
    forall i :: 0 <= i < |tokens| ==> !IsBare(tokens[i])
  }

  ghost predicate SomeSpireSpells(tokens: seq<string>) {
    exists i :: 0 <= i < |tokens| && SpireSpells(tokens[i])
  }

  /** `scanSpireRemovedTTLSpellings` */
  method ScanSpire(tokens: seq<string>) returns (r: Presence)
    ensures r.resolved <==> NoBare(tokens)
    ensures r.present <==> NoBare(tokens) && SomeSpireSpells(tokens)
  {
    var present := false;
    assert "-" !in TTL && "--" !in TTL;
    for i := 0 to |tokens|
      invariant forall j :: 0 <= j < i ==> !IsBare(tokens[j])
      invariant present <==> exists j :: 0 <= j < i && SpireSpells(tokens[j])
    {
      var token := tokens[i];
      if token in TTL {
        present := true;
      } else if HasPrefix(token, "-") {
        if token == "-" || token == "--" {
          return UNRESOLVED;
        }
        var halves := Cut(token, '=');
        if halves.value.Some? && halves.name in TTL {
          present := true;
        }
      }
    }
    return Presence(present, true);
  }

  /** Whenever the shared scan resolves, the SPIRE scan resolves too and gives the same answer. */
  lemma SpireExtends(tokens: seq<string>)
    requires AllResolvable(tokens, TTL)
    ensures NoBare(tokens)
    ensures SomeSpireSpells(tokens) <==> SomeSpells(tokens, TTL)
  {
    forall i | 0 <= i < |tokens| ensures !IsBare(tokens[i]) && (SpireSpells(tokens[i]) <==> Spells(tokens[i], TTL)) {
      var token := tokens[i];
      assert Resolvable(token, TTL);
      assert "-" !in TTL && "--" !in TTL;
      assert HasPrefix("-", "-") && HasPrefix("--", "-");
      if HasPrefix(token, "-") && !HasPrefix(token, "--") && token !in TTL {
        CutSplits(token, '=');
        assert |token| <= 2 && Cut(token, '=').value.Some? ==> |Cut(token, '=').name| <= 1;
      }
    }
  }

  // ---------- keadm init

  const PROFILE := "--profile"
  const VERSION_FLAG := "--kubeedge-version"
  const VERSION_KEY := "version="

  datatype Form = Unsupported | Neither | Legacy | VersionFlag | Both

  datatype Selection = Selection(form: Form, resolved: bool)

  /** A token that a selector scan may pass: no option, or a long one. */
  predicate Plain(token: string) {
    HasPrefix(token, "-") ==> token != "-" && token != "--" && HasPrefix(token, "--")
  }

  predicate IsOption(token: string, name: string) {
    HasPrefix(token, "-") && Cut(token, '=').name == name
  }

  /** The value of the option at `i`: attached, or the next token. */
  function OptionValue(tokens: seq<string>, i: nat): Option<string>
    requires i < |tokens|
  {
    if Cut(tokens[i], '=').value.Some? then Cut(tokens[i], '=').value
    else if i + 1 < |tokens| then Some(tokens[i + 1])
    else None
  }

  predicate IsTarget(value: Option<string>, target: string) {
    value.Some? && (value.value == "v" + target || value.value == target)
  }

  predicate IsVersionKey(value: Option<string>) {
    value.Some? && HasPrefix(value.value, VERSION_KEY)
  }

  /** The flags of the loop. */
  datatype Flags = Flags(legacy: bool, external: bool, version: bool, otherVersion: bool)

  datatype Turn = Stop | Go(next: nat, flags: Flags)

  /** One turn of the loop at `i`: an option without an attached value takes the next token with it. */
  function TurnAt(tokens: seq<string>, i: nat, target: string, f: Flags): (t: Turn)
    requires i < |tokens|
    ensures t.Go? ==> i < t.next <= |tokens|
  {
    var token := tokens[i];
    if !HasPrefix(token, "-") then Go(i + 1, f)
    else if !Plain(token) then Stop
    else
      var halves := Cut(token, '=');
      if halves.name != PROFILE && halves.name != VERSION_FLAG then Go(i + 1, f)
      else if halves.value == None && i + 1 >= |tokens| then Stop
      else
        var value := OptionValue(tokens, i);
        var next := if halves.value.Some? then i + 1 else i + 2;
        if halves.name == PROFILE then
          Go(next, if IsVersionKey(value) then f.(legacy := true) else f.(external := true))
        else
          Go(next, if IsTarget(value, target) then f.(version := true) else f.(otherVersion := true))
  }

  function Loop(tokens: seq<string>, i: nat, target: string, f: Flags): Option<Flags>
    requires i <= |tokens|
    decreases |tokens| - i
  {
    if i == |tokens| then Some(f)
    else
      var turn := TurnAt(tokens, i, target, f);
      if turn.Stop? then None else Loop(tokens, turn.next, target, turn.flags)
  }

  function Conclude(f: Flags): Form {
    if f.legacy && (f.version || f.otherVersion) then Both
    else if f.legacy && f.external then Unsupported
    else if f.legacy then Legacy
    else if f.external || f.otherVersion then Unsupported
    else if f.version then VersionFlag
    else Neither
  }

  function Selectors(tokens: seq<string>, target: string): Selection {
    var f := Loop(tokens, 0, target, Flags(false, false, false, false));
    if f == None then Selection(Unsupported, false) else Selection(Conclude(f.value), true)
  }

  /** `scanKeadmInitVersionSelectors` */
  method ScanSelectors(tokens: seq<string>, target: string) returns (r: Selection)
    ensures r == Selectors(tokens, target)
  {
    var f := Flags(false, false, false, false);
    var index := 0;
    while index < |tokens|
      invariant index <= |tokens|
      invariant Loop(tokens, 0, target, Flags(false, false, false, false)) == Loop(tokens, index, target, f)
    {
      var token := tokens[index];
      ghost var start := index;
      if HasPrefix(token, "-") {
        if token == "-" || token == "--" || !HasPrefix(token, "--") {
          return Selection(Unsupported, false);
        }
        var halves := Cut(token, '=');
        if halves.name == PROFILE || halves.name == VERSION_FLAG {
          var value := halves.value;
          if value == None {
            index := index + 1;
            if index >= |tokens| {
              return Selection(Unsupported, false);
            }
            value := Some(tokens[index]);
          }
          if halves.name == PROFILE {
            f := if HasPrefix(value.value, VERSION_KEY) then f.(legacy := true) else f.(external := true);
          } else {
            f := if value.value == "v" + target || value.value == target then f.(version := true) else f.(otherVersion := true);
          }
        }
      }
      index := index + 1;
    }
    return Selection(Conclude(f), true);
  }

  // ---------- what the two reviewed forms mean, position by position

  ghost predicate AllPlain(tokens: seq<string>, from: nat) {
    forall i :: from <= i < |tokens| ==> Plain(tokens[i])
  }

  ghost predicate NoOption(tokens: seq<string>, from: nat, name: string) {
    forall i :: from <= i < |tokens| ==> !IsOption(tokens[i], name)
  }

  ghost predicate HasOption(tokens: seq<string>, from: nat, name: string) {
    exists i :: from <= i < |tokens| && IsOption(tokens[i], name)
  }

  ghost predicate VersionsSelect(tokens: seq<string>, from: nat, target: string) {
    forall i :: from <= i < |tokens| && IsOption(tokens[i], VERSION_FLAG) ==> IsTarget(OptionValue(tokens, i), target)
  }

  ghost predicate ProfilesSelect(tokens: seq<string>, from: nat) {
    forall i :: from <= i < |tokens| && IsOption(tokens[i], PROFILE) ==> IsVersionKey(OptionValue(tokens, i))
  }

  lemma OptionNames()
    ensures PROFILE != VERSION_FLAG && HasPrefix(PROFILE, "--") && HasPrefix(VERSION_FLAG, "--")
  {
    assert |PROFILE| != |VERSION_FLAG|;
  }

  /** A token that does not start with a dash is no option. */
  lemma NoDash(token: string)
    requires !HasPrefix(token, "-")
    ensures Plain(token) && !IsOption(token, PROFILE) && !IsOption(token, VERSION_FLAG)
  {
  }

  lemma TargetHasNoDash(value: string, target: string)
    requires IsTarget(Some(value), target) && !HasPrefix(target, "-")
    ensures !HasPrefix(value, "-")
  {
  }

  lemma VersionKeyHasNoDash(value: string)
    requires IsVersionKey(Some(value))
    ensures !HasPrefix(value, "-")
  {
    assert value[0] == VERSION_KEY[0];
  }

  /** Only the version flag, always with the target. */
  ghost predicate OnlyVersions(tokens: seq<string>, from: nat, target: string) {
    AllPlain(tokens, from) && NoOption(tokens, from, PROFILE) && VersionsSelect(tokens, from, target)
  }

  /** Only profiles, always with a version key. */
  ghost predicate OnlyProfiles(tokens: seq<string>, from: nat) {
    AllPlain(tokens, from) && NoOption(tokens, from, VERSION_FLAG) && ProfilesSelect(tokens, from)
  }

  /** The positions from `i` on are position `i` and those after it. */
  lemma VersionsFrom(tokens: seq<string>, i: nat, target: string)
    requires i < |tokens|
    ensures OnlyVersions(tokens, i, target) <==>
            && Plain(tokens[i]) && !IsOption(tokens[i], PROFILE)
            && (IsOption(tokens[i], VERSION_FLAG) ==> IsTarget(OptionValue(tokens, i), target))
            && OnlyVersions(tokens, i + 1, target)
    ensures HasOption(tokens, i, VERSION_FLAG) <==> IsOption(tokens[i], VERSION_FLAG) || HasOption(tokens, i + 1, VERSION_FLAG)
  {
  }

  lemma ProfilesFrom(tokens: seq<string>, i: nat)
    requires i < |tokens|
    ensures OnlyProfiles(tokens, i) <==>
            && Plain(tokens[i]) && !IsOption(tokens[i], VERSION_FLAG)
            && (IsOption(tokens[i], PROFILE) ==> IsVersionKey(OptionValue(tokens, i)))
            && OnlyProfiles(tokens, i + 1)
    ensures HasOption(tokens, i, PROFILE) <==> IsOption(tokens[i], PROFILE) || HasOption(tokens, i + 1, PROFILE)
  {
  }

  lemma NothingLeft(tokens: seq<string>, target: string)
    ensures OnlyVersions(tokens, |tokens|, target) && OnlyProfiles(tokens, |tokens|)
    ensures forall name :: !HasOption(tokens, |tokens|, name)
    ensures !IsTarget(None, target) && !IsVersionKey(None)
  {
  }

  lemma {:induction false} LoopVersions(tokens: seq<string>, i: nat, target: string, f: Flags)
    requires i <= |tokens| && !HasPrefix(target, "-") && !f.legacy && !f.external && !f.otherVersion
    ensures var end := Loop(tokens, i, target, f);
            (end.Some? && !end.value.legacy && !end.value.external && !end.value.otherVersion
             <==> OnlyVersions(tokens, i, target))
            && (OnlyVersions(tokens, i, target) ==> (end.value.version <==> f.version || HasOption(tokens, i, VERSION_FLAG)))
    decreases |tokens| - i
  {
    hide OnlyVersions, HasOption, IsTarget, Cut;
    NothingLeft(tokens, target);
    if i < |tokens| {
      OptionNames();
      VersionsFrom(tokens, i, target);
      var turn := TurnAt(tokens, i, target, f);
      if turn.Go? {
        if turn.flags.external || turn.flags.legacy || turn.flags.otherVersion {
          LoopKeeps(tokens, turn.next, target, turn.flags);
        } else {
          if turn.next == i + 2 {
            TargetHasNoDash(tokens[i + 1], target);
            NoDash(tokens[i + 1]);
            VersionsFrom(tokens, i + 1, target);
          }
          LoopVersions(tokens, turn.next, target, turn.flags);
        }
      }
    }
  }

  lemma {:induction false} LoopProfiles(tokens: seq<string>, i: nat, target: string, f: Flags)
    requires i <= |tokens| && !f.version && !f.external && !f.otherVersion
    ensures var end := Loop(tokens, i, target, f);
            (end.Some? && !end.value.version && !end.value.external && !end.value.otherVersion <==> OnlyProfiles(tokens, i))
            && (OnlyProfiles(tokens, i) ==> (end.value.legacy <==> f.legacy || HasOption(tokens, i, PROFILE)))
    decreases |tokens| - i
  {
    hide OnlyProfiles, HasOption, IsTarget, IsVersionKey, Cut;
    NothingLeft(tokens, target);
    if i < |tokens| {
      OptionNames();
      ProfilesFrom(tokens, i);
      var turn := TurnAt(tokens, i, target, f);
      if turn.Go? {
        if turn.flags.external || turn.flags.version || turn.flags.otherVersion {
          LoopKeeps(tokens, turn.next, target, turn.flags);
        } else {
          if turn.next == i + 2 {
            VersionKeyHasNoDash(tokens[i + 1]);
            NoDash(tokens[i + 1]);
            ProfilesFrom(tokens, i + 1);
          }
          LoopProfiles(tokens, turn.next, target, turn.flags);
        }
      }
    }
  }

  /** A flag once set stays set. */
  lemma {:induction false} LoopKeeps(tokens: seq<string>, i: nat, target: string, f: Flags)
    requires i <= |tokens|
    ensures var end := Loop(tokens, i, target, f);
            end.Some? ==>
              && (f.legacy ==> end.value.legacy) && (f.external ==> end.value.external)
              && (f.version ==> end.value.version) && (f.otherVersion ==> end.value.otherVersion)
    decreases |tokens| - i
  {
    if i < |tokens| {
      hide IsTarget, IsVersionKey, Cut;
      var turn := TurnAt(tokens, i, target, f);
      if turn.Go? {
        LoopKeeps(tokens, turn.next, target, turn.flags);
      }
    }
  }

  /**
    The version-flag form is reported exactly when, at every position and in
    spite of the jumps over values, no token is a profile option, every version
    option selects the target, and there is one.
    */
  lemma VersionFlagIff(tokens: seq<string>, target: string)
    requires !HasPrefix(target, "-")
    ensures Selectors(tokens, target) == Selection(VersionFlag, true) <==>
            OnlyVersions(tokens, 0, target) && HasOption(tokens, 0, VERSION_FLAG)
  {
    LoopVersions(tokens, 0, target, Flags(false, false, false, false));
  }

  /** The legacy form is reported exactly when no token is a version option, every profile has a version key, and there is one. */
  lemma LegacyIff(tokens: seq<string>, target: string)
    ensures Selectors(tokens, target) == Selection(Legacy, true) <==>
            OnlyProfiles(tokens, 0) && HasOption(tokens, 0, PROFILE)
  {
    LoopProfiles(tokens, 0, target, Flags(false, false, false, false));
  }

  // ---------- every form, by what stands at the places of options

  predicate IsSelector(token: string) {
    IsOption(token, PROFILE) || IsOption(token, VERSION_FLAG)
  }

  /** A position that is not the value of a selector before it. */
  ghost predicate IsPlace(tokens: seq<string>, k: nat)
    requires k <= |tokens|
  {
    k == 0 || !(IsPlace(tokens, k - 1) && IsSelector(tokens[k - 1]) && '=' !in tokens[k - 1])
  }

  datatype Sighting = Obscure | VersionProfile | OtherProfile | TargetVersion | OtherVersion

  /** What may be seen at a place. */
  ghost predicate Seen(tokens: seq<string>, k: nat, target: string, what: Sighting)
    requires k < |tokens|
  {
    var value := OptionValue(tokens, k);
    match what
    case Obscure => !Plain(tokens[k]) || (IsSelector(tokens[k]) && value == None)
    case VersionProfile => IsOption(tokens[k], PROFILE) && value.Some? && IsVersionKey(value)
    case OtherProfile => IsOption(tokens[k], PROFILE) && value.Some? && !IsVersionKey(value)
    case TargetVersion => IsOption(tokens[k], VERSION_FLAG) && value.Some? && IsTarget(value, target)
    case OtherVersion => IsOption(tokens[k], VERSION_FLAG) && value.Some? && !IsTarget(value, target)
  }

  ghost predicate SeenFrom(tokens: seq<string>, i: nat, target: string, what: Sighting) {
    exists k :: i <= k < |tokens| && IsPlace(tokens, k) && Seen(tokens, k, target, what)
  }

  lemma AttachedIff(token: string)
    ensures Cut(token, '=').value == None <==> '=' !in token
  {
    CutSplits(token, '=');
    var halves := Cut(token, '=');
    if halves.value.Some? {
      assert token[|halves.name|] == '=';
    }
  }

  lemma SelectorsArePlain(token: string)
    requires IsSelector(token)
    ensures Plain(token)
    ensures Cut(token, '=').value == None <==> '=' !in token
  {
    hide Cut;
    AttachedIff(token);
    CutSplits(token, '=');
    var name := Cut(token, '=').name;
    LongNames(name);
    assert |name| <= |token| && token[..|name|] == name;
    assert token[0] == name[0] && token[1] == name[1];
    assert token[..2] == [token[0], token[1]];
  }

  lemma LongNames(name: string)
    requires name == PROFILE || name == VERSION_FLAG
    ensures |name| > 2 && name[0] == '-' && name[1] == '-'
  {
  }

  lemma SeenStep(tokens: seq<string>, i: nat, next: nat, target: string, what: Sighting)
    requires i < next <= |tokens| && IsPlace(tokens, i)
    requires next == i + 1 || (next == i + 2 && !IsPlace(tokens, i + 1))
    ensures SeenFrom(tokens, i, target, what) <==> Seen(tokens, i, target, what) || SeenFrom(tokens, next, target, what)
  {
    hide IsPlace, Seen;
  }

  ghost predicate FlagsAre(tokens: seq<string>, i: nat, target: string, f: Flags, end: Flags) {
    && (end.legacy <==> f.legacy || SeenFrom(tokens, i, target, VersionProfile))
    && (end.external <==> f.external || SeenFrom(tokens, i, target, OtherProfile))
    && (end.version <==> f.version || SeenFrom(tokens, i, target, TargetVersion))
    && (end.otherVersion <==> f.otherVersion || SeenFrom(tokens, i, target, OtherVersion))
  }

  /** One turn, as a sighting. */
  lemma TurnIs(tokens: seq<string>, i: nat, target: string, f: Flags)
    requires i < |tokens| && IsPlace(tokens, i)
    ensures var turn := TurnAt(tokens, i, target, f);
            && (turn.Stop? <==> Seen(tokens, i, target, Obscure))
            && (turn.Go? ==>
                  && (turn.next == i + 1 || (turn.next == i + 2 && !IsPlace(tokens, i + 1)))
                  && IsPlace(tokens, turn.next)
                  && (turn.flags.legacy <==> f.legacy || Seen(tokens, i, target, VersionProfile))
                  && (turn.flags.external <==> f.external || Seen(tokens, i, target, OtherProfile))
                  && (turn.flags.version <==> f.version || Seen(tokens, i, target, TargetVersion))
                  && (turn.flags.otherVersion <==> f.otherVersion || Seen(tokens, i, target, OtherVersion)))
  {
    hide Cut, IsTarget, IsVersionKey;
    OptionNames();
    if IsSelector(tokens[i]) {
      SelectorsArePlain(tokens[i]);
    }
  }

  lemma {:induction false} LoopIs(tokens: seq<string>, i: nat, target: string, f: Flags)
    requires i <= |tokens| && IsPlace(tokens, i)
    ensures var end := Loop(tokens, i, target, f);
            if end.Some? then !SeenFrom(tokens, i, target, Obscure) && FlagsAre(tokens, i, target, f, end.value)
            else SeenFrom(tokens, i, target, Obscure)
    decreases |tokens| - i
  {
    hide Seen, IsPlace, TurnAt;
    if i < |tokens| {
      TurnIs(tokens, i, target, f);
      var turn := TurnAt(tokens, i, target, f);
      if turn.Go? {
        forall what ensures SeenFrom(tokens, i, target, what) <==>
                            Seen(tokens, i, target, what) || SeenFrom(tokens, turn.next, target, what)
        {
          SeenStep(tokens, i, turn.next, target, what);
        }
        LoopIs(tokens, turn.next, target, turn.flags);
      }
    }
  }

  /** Every form of the selectors, and that there is none, by what is seen at the places of options. */
  lemma SelectionIs(tokens: seq<string>, target: string)
    ensures var s := Selectors(tokens, target);
            var version, other := SeenFrom(tokens, 0, target, TargetVersion), SeenFrom(tokens, 0, target, OtherVersion);
            var legacy, external := SeenFrom(tokens, 0, target, VersionProfile), SeenFrom(tokens, 0, target, OtherProfile);
            && (s.resolved <==> !SeenFrom(tokens, 0, target, Obscure))
            && (!s.resolved ==> s.form == Unsupported)
            && (s.resolved ==>
                  && (s.form == Both <==> legacy && (version || other))
                  && (s.form == Legacy <==> legacy && !external && !version && !other)
                  && (s.form == VersionFlag <==> version && !other && !legacy && !external)
                  && (s.form == Neither <==> !version && !other && !legacy && !external))
  {
    hide Seen, IsPlace, TurnAt;
    FirstPlace(tokens);
    LoopIs(tokens, 0, target, Flags(false, false, false, false));
  }

  lemma FirstPlace(tokens: seq<string>)
    ensures IsPlace(tokens, 0)
  {
  }
}
