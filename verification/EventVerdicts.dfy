/** From the text of an event and the context of its evaluation to the exit code. */
module EventVerdicts {
  import opened Common
  import opened JsonText
  import opened EventScanSpec
  import opened EventScanProofs
  import opened EventBounds
  import opened CloudEvents

  // ---------- characters

  /** The control characters of the first two blocks of Unicode, with DEL. */
  ghost predicate IsControl(c: char) {
    c < '\U{20}' || '\U{7F}' <= c < '\U{A0}'
  }

  /** The 66 noncharacters of Unicode: 32 in one block, and the last two of each of the 17 planes. */
  ghost predicate IsNoncharacter(c: char) {
    || (0xfdd0 <= c as int < 0xfdd0 + 32)
    || exists plane: int :: 0 <= plane < 17 && LastOfPlane(c, plane)
  }

  ghost predicate LastOfPlane(c: char, plane: int) {
    (plane + 1) * 0x10000 - 2 <= c as int < (plane + 1) * 0x10000
  }

  /** A CloudEvents String may hold every character but controls and noncharacters. */
  lemma AllowedIff(c: char)
    ensures IsAllowed(c) <==> !IsControl(c) && !IsNoncharacter(c)
  {
    var plane := c as int / 0x10000;
    assert 0 <= plane < 17;
    if IsNoncharacter(c) && !(0xfdd0 <= c as int < 0xfdd0 + 32) {
      var p :| 0 <= p < 17 && LastOfPlane(c, p);
      assert c as int % 0x10000 == c as int - p * 0x10000;
    }
    if c as int % 0x10000 >= 0xfffe {
      assert LastOfPlane(c, plane);
    }
  }

  // ---------- contexts

  /** Only an active context and a known schema lead to a verdict; every other way has its own code. */
  lemma InactiveClaims(ctx: Context, o: Observation)
    ensures Evaluate(ctx, o).status == "PASS" || Evaluate(ctx, o).status == "FAIL" ==> ctx.Active() && o.schema == OBSERVATION_SCHEMA
    ensures !ctx.clockIsUtc || !ctx.profileIsValid || o.schema != OBSERVATION_SCHEMA ==>
              Evaluate(ctx, o) == Claim("UNKNOWN", "EVALUATION_INPUT_INVALID")
    ensures ctx.clockIsUtc && ctx.profileIsValid && o.schema == OBSERVATION_SCHEMA && !ctx.hasRule ==>
              Evaluate(ctx, o) == Claim("UNKNOWN", "PROFILE_NO_APPLICABLE_RULE")
    ensures ctx.clockIsUtc && ctx.profileIsValid && o.schema == OBSERVATION_SCHEMA && ctx.hasRule && ctx.expired ==>
              Evaluate(ctx, o) == Claim("UNKNOWN", "PROFILE_EVIDENCE_EXPIRED")
  {
    hide EvaluateAttributes;
  }

  // ---------- violations

  ghost predicate HasNonemptyText(ms: Members, name: string) {
    HasText(ms, name) && Decode(LastValue(ms, name).value.pieces) != ""
  }

  /** An event of edition 1.0 that lacks an attribute or has both payloads, or an object without a valid edition. */
  ghost predicate IsViolation(v: Value) {
    || v.EmptyObject?
    || (&& v.Object?
        && var ms := v.members;
           && Distinct(Names(ms))
           && (|| !HasValidText(ms, "specversion")
               || (&& Decode(LastValue(ms, "specversion").value.pieces) == "1.0"
                   && (|| !HasValidText(ms, "id")
                       || !HasNonemptyText(ms, "source")
                       || (&& !LoneSurrogate(LastValue(ms, "source").value.pieces)
                           && (!HasValidText(ms, "type") || ("data" in Names(ms) && "data_base64" in Names(ms))))))))
  }

  lemma VerdictFails(scan: EventScan)
    ensures Verdict(scan).status == "FAIL" <==>
            && scan.rootObject && !scan.duplicate
            && (|| !HasValidString(scan, "specversion")
                || (&& scan.selected["specversion"].text == "1.0"
                    && (|| !HasValidString(scan, "id")
                        || TextOf(scan, "source") == None || TextOf(scan, "source").value.text == ""
                        || (&& !TextOf(scan, "source").value.repaired
                            && (!HasValidString(scan, "type") || ("data" in scan.selected && "data_base64" in scan.selected))))))
  {
    hide HasValidString, TextOf;
  }

  /** What the scan of a tree says about a selected string. */
  lemma KeptIs(ms: Members, name: string)
    requires IsSelected(name)
    ensures HasValidString(Reported(Object(ms)), name) <==> HasValidText(ms, name)
    ensures var kept := Reported(Object(ms)).selected;
            HasText(ms, name) ==> name in kept && kept[name].text == Decode(LastValue(ms, name).value.pieces)
  {
    hide Reported, LastValue, Decode, LoneSurrogate, IsCloudEventsString, IsSelected;
    KeptText(ms, name);
  }

  lemma FailIffViolation(v: Value, ctx: Context)
    requires ctx.Active()
    ensures Evaluate(ctx, Observed(Reported(v))).status == "FAIL" <==> IsViolation(v)
  {
    hide Evaluate, Observed, Verdict, HasValidString, IsCloudEventsString, LastValue, Decode, LoneSurrogate;
    EvaluateObserved(Reported(v), ctx);
    VerdictFails(Reported(v));
    if v.Object? {
      var ms := v.members;
      DuplicateIff(EMPTY_BOOK, ms);
      assert !Meets({}, Names(ms));
      KeptIs(ms, "specversion");
      KeptIs(ms, "id");
      KeptIs(ms, "type");
      KeptText(ms, "source");
      KeptText(ms, "data");
      KeptText(ms, "data_base64");
    } else if v.EmptyObject? {
      NothingKept("specversion");
    }
  }

  lemma NothingKept(name: string)
    ensures !HasValidString(EventScan(true, false, map[]), name)
  {
  }

  // ---------- the exit

  /** The text is that of a tree within the bounds of which `p` holds. */
  ghost predicate IsTextOf(raw: string, p: Value -> bool) {
    && Utf8Length(raw) <= 1048576
    && exists e: Element :: ElementOk(e) && PrintElement(e) == raw && WithinBounds(e.value) && p(e.value)
  }

  ghost function Exit(raw: string, ctx: Context): Option<int> {
    var o := ObserveText(raw);
    if o == None then None else Some(ClaimExit(Evaluate(ctx, o.value)))
  }

  /** The exit and the status of a claim. */
  lemma ClaimExitIff(claim: Claim)
    ensures ClaimExit(claim) == 0 <==> claim.status == "PASS"
    ensures ClaimExit(claim) == 10 <==> claim.status == "FAIL"
    ensures claim.status != "PASS" && claim.status != "FAIL" ==> ClaimExit(claim) == 11
  {
  }

  lemma ExitOfTree(raw: string, ctx: Context, e: Element)
    requires ElementOk(e) && PrintElement(e) == raw && Utf8Length(raw) <= 1048576 && WithinBounds(e.value)
    ensures Exit(raw, ctx).Some?
    ensures Exit(raw, ctx).value == 0 <==> ctx.Active() && IsEnvelope(e.value)
    ensures Exit(raw, ctx).value == 10 <==> ctx.Active() && IsViolation(e.value)
    ensures Exit(raw, ctx).value in {0, 10, 11}
  {
    hide Evaluate, Observed, ObserveText, IsEnvelope, IsViolation, ClaimExit;
    TextGives(raw, e);
    var o := Observed(Reported(e.value));
    ClaimExitIff(Evaluate(ctx, o));
    InactiveClaims(ctx, o);
    if ctx.Active() {
      PassIffEnvelope(e.value, ctx);
      FailIffViolation(e.value, ctx);
    }
  }

  /**
    End to end, for every text and every context: 0 exactly for the text of an
    envelope within the bounds in an active context, 10 exactly for the text of a
    violation there, 11 for every other text of a tree within the bounds, and an
    error for anything else.
    */
  lemma ExitExactly(raw: string, ctx: Context)
    ensures Exit(raw, ctx).Some? <==> IsTextOf(raw, v => true)
    ensures Exit(raw, ctx) == Some(0) <==> ctx.Active() && IsTextOf(raw, v => IsEnvelope(v))
    ensures Exit(raw, ctx) == Some(10) <==> ctx.Active() && IsTextOf(raw, v => IsViolation(v))
    ensures Exit(raw, ctx).Some? ==> Exit(raw, ctx).value in {0, 10, 11}
  {
    hide Exit, IsEnvelope, IsViolation, WithinBounds;
    forall e: Element | ElementOk(e) && PrintElement(e) == raw && Utf8Length(raw) <= 1048576 && WithinBounds(e.value)
      ensures Exit(raw, ctx).Some? && Exit(raw, ctx).value in {0, 10, 11}
      ensures Exit(raw, ctx).value == 0 <==> ctx.Active() && IsEnvelope(e.value)
      ensures Exit(raw, ctx).value == 10 <==> ctx.Active() && IsViolation(e.value)
    {
      ExitOfTree(raw, ctx, e);
    }
    if Exit(raw, ctx).Some? {
      OnlyTrees(raw, ctx);
    }
  }

  lemma OnlyTrees(raw: string, ctx: Context)
    requires Exit(raw, ctx).Some?
    ensures Utf8Length(raw) <= 1048576 && exists e: Element :: ElementOk(e) && PrintElement(e) == raw && WithinBounds(e.value)
  {
    hide Evaluate, Observed, WithinBounds;
    assert IsJson(raw);
    var e: Element :| ElementOk(e) && PrintElement(e) == raw;
    TextGives(raw, e);
  }
}
