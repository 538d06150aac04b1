/** The observation of one structured-mode event, its evaluation, and when exactly the verdict is PASS. */
module CloudEvents {
  import opened Common
  import opened JsonText
  import opened EventScanSpec
  import opened EventStringProofs
  import opened EventScanner
  import opened EventScanProofs
  import opened EventBounds

  const OBSERVATION_SCHEMA := "prufyx.io/cloudevents-structured-json-observation/v1"
  const MAX_INPUT: nat := 1048576

  datatype Observation = Observation(
    schema: string,
    rootAdmission: string,
    editionAdmission: Option<string>,
    idIsNonemptyValidString: Option<bool>,
    sourceAdmission: Option<string>,
    typeIsNonemptyValidString: Option<bool>,
    dataAndDataBase64NotBothPresent: Option<bool>)

  // ---------- strings of the CloudEvents type system

  /** The characters that a CloudEvents String may hold. */
  predicate IsAllowed(c: char) {
    var r := c as int;
    !(r <= 0x1f || 0x7f <= r <= 0x9f || 0xfdd0 <= r <= 0xfdef || r % 0x10000 == 0xfffe || r % 0x10000 == 0xffff)
  }

  predicate IsCloudEventsString(text: string, repaired: bool) {
    text != "" && !repaired && forall i :: 0 <= i < |text| ==> IsAllowed(text[i])
  }

  method ValidCloudEventsString(v: Scanned) returns (ok: bool)
    ensures ok == IsCloudEventsString(v.text, v.repaired)
  {
    if v.text == "" || v.repaired {
      return false;
    }
    for i := 0 to |v.text|
      invariant forall j :: 0 <= j < i ==> IsAllowed(v.text[j])
    {
      if !IsAllowed(v.text[i]) {
        return false;
      }
    }
    return true;
  }

  // ---------- the staged observation

  ghost function TextOf(scan: EventScan, name: string): Option<Scanned> {
    if name in scan.selected && scan.selected[name].kind == StringKind then Some(scan.selected[name]) else None
  }

  ghost predicate HasValidString(scan: EventScan, name: string) {
    var v := TextOf(scan, name);
    v.Some? && IsCloudEventsString(v.value.text, v.value.repaired)
  }

  ghost function Edition(scan: EventScan): string {
    if !HasValidString(scan, "specversion") then "missing_or_invalid"
    else if scan.selected["specversion"].text == "1.0" then "valid_1_0"
    else "other_valid_edition"
  }

  ghost function Source(scan: EventScan): string {
    var v := TextOf(scan, "source");
    if v == None || v.value.text == "" then "missing_or_invalid"
    else if v.value.repaired then "repair_detected"
    else "admitted_nonempty_json_string"
  }

  /** Each field is reported only when every field before it was admitted. */
  ghost function Observed(scan: EventScan): Observation {
    var o := Observation(OBSERVATION_SCHEMA, "unsupported_root_shape", None, None, None, None, None);
    if !scan.rootObject then o
    else if scan.duplicate then o.(rootAdmission := "duplicate_decoded_root_name")
    else
      var o := o.(rootAdmission := "admitted_root_object", editionAdmission := Some(Edition(scan)));
      if Edition(scan) != "valid_1_0" then o else ObservedAttributes(scan, o)
  }

  /** The stages after the edition. */
  ghost function ObservedAttributes(scan: EventScan, o: Observation): Observation {
    var o := o.(idIsNonemptyValidString := Some(HasValidString(scan, "id")));
    if !HasValidString(scan, "id") then o
    else
      var o := o.(sourceAdmission := Some(Source(scan)));
      if Source(scan) != "admitted_nonempty_json_string" then o
      else
        var o := o.(typeIsNonemptyValidString := Some(HasValidString(scan, "type")));
        if !HasValidString(scan, "type") then o
        else o.(dataAndDataBase64NotBothPresent := Some(!("data" in scan.selected && "data_base64" in scan.selected)))
  }

  /** What `Observe` returns, `None` for its error. */
  ghost function ObserveText(raw: string): Option<Observation> {
    if raw == "" || Utf8Length(raw) > MAX_INPUT || !IsJson(raw) then None
    else
      var scan := EventScanSpec.ScanRoot(SkipBlanks(raw));
      if scan.Rejected? || SkipBlanks(scan.rest) != "" then None
      else Some(Observed(scan.value))
  }

  method SelectedString(scan: EventScan, name: string) returns (ok: bool)
    ensures ok == HasValidString(scan, name)
  {
    ok := false;
    if name in scan.selected && scan.selected[name].kind == StringKind {
      ok := ValidCloudEventsString(scan.selected[name]);
    }
  }

  /** The ladder from a scan to its observation. */
  method ObserveScan(scan: EventScan) returns (o: Observation)
    ensures o == Observed(scan)
  {
    o := Observation(OBSERVATION_SCHEMA, "unsupported_root_shape", None, None, None, None, None);
    if !scan.rootObject {
      return;
    }
    if scan.duplicate {
      o := o.(rootAdmission := "duplicate_decoded_root_name");
      return;
    }
    o := o.(rootAdmission := "admitted_root_object");
    var edition := "missing_or_invalid";
    var ok := SelectedString(scan, "specversion");
    if ok {
      edition := if scan.selected["specversion"].text == "1.0" then "valid_1_0" else "other_valid_edition";
    }
    o := o.(editionAdmission := Some(edition));
    if edition != "valid_1_0" {
      return;
    }
    ok := SelectedString(scan, "id");
    o := o.(idIsNonemptyValidString := Some(ok));
    if !ok {
      return;
    }
    var source := "missing_or_invalid";
    if "source" in scan.selected && scan.selected["source"].kind == StringKind && scan.selected["source"].text != "" {
      source := if scan.selected["source"].repaired then "repair_detected" else "admitted_nonempty_json_string";
    }
    o := o.(sourceAdmission := Some(source));
    if source != "admitted_nonempty_json_string" {
      return;
    }
    ok := SelectedString(scan, "type");
    o := o.(typeIsNonemptyValidString := Some(ok));
    if !ok {
      return;
    }
    o := o.(dataAndDataBase64NotBothPresent := Some(!("data" in scan.selected && "data_base64" in scan.selected)));
  }

  /** `jsonValid` is the answer of `json.Valid`, which is not part of this model. */
  method Observe(raw: string, jsonValid: bool) returns (o: Option<Observation>)
    requires jsonValid <==> IsJson(raw)
    ensures o == ObserveText(raw)
  {
    if |raw| == 0 || Utf8Length(raw) > MAX_INPUT || !jsonValid {
      return None;
    }
    var s := new JsonScanner(raw);
    s.Space();
    var ok, scan := s.ScanRoot();
    if !ok {
      return None;
    }
    s.Space();
    if s.pos != |raw| {
      return None;
    }
    var observation := ObserveScan(scan);
    return Some(observation);
  }

  /** `Observe` on any JSON text: an error exactly above the bounds, otherwise what the tree says. */
  lemma ObserveDocument(e: Element)
    requires ElementOk(e)
    ensures ObserveText(PrintElement(e))
         == if Utf8Length(PrintElement(e)) <= 1048576 && WithinBounds(e.value)
            then Some(Observed(Reported(e.value))) else None
  {
    var raw := PrintElement(e);
    var bare := e.(before := "");
    OpenValue(e.value, e.before, e.after);
    assert "" + PrintValue(e.value) + e.after == PrintValue(e.value) + e.after;
    assert SkipBlanks(raw) == PrintElement(bare);
    ReadsDocument(bare);
    FitsIffWithinBounds(e.value);
  }

  // ---------- evaluation

  datatype Claim = Claim(status: string, reasonCode: string)

  /** The part of the evaluation that does not look at the event. */
  datatype Context = Context(clockIsUtc: bool, profileIsValid: bool, hasRule: bool, expired: bool) {
    predicate Active() {
      clockIsUtc && profileIsValid && hasRule && !expired
    }
  }

  const OUTSIDE := "OBSERVATION_NOT_IN_REVIEWED_SUBSET"

  function Unknown(code: string): Claim {
    Claim("UNKNOWN", if code == "" then OUTSIDE else code)
  }

  function Fail(code: string): Claim {
    Claim("FAIL", code)
  }

  function Evaluate(ctx: Context, o: Observation): Claim {
    if !ctx.clockIsUtc || !ctx.profileIsValid || o.schema != OBSERVATION_SCHEMA then Unknown("EVALUATION_INPUT_INVALID")
    else if !ctx.hasRule then Unknown("PROFILE_NO_APPLICABLE_RULE")
    else if ctx.expired then Unknown("PROFILE_EVIDENCE_EXPIRED")
    else if o.rootAdmission == "unsupported_root_shape" then Unknown("UNSUPPORTED_ROOT_SHAPE")
    else if o.rootAdmission == "duplicate_decoded_root_name" then Unknown("DUPLICATE_DECODED_ROOT_NAME")
    else if o.rootAdmission != "admitted_root_object" then Unknown(OUTSIDE)
    else if o.editionAdmission == None then Unknown(OUTSIDE)
    else if o.editionAdmission.value == "missing_or_invalid" then Fail("SPECVERSION_REQUIRED_VALID_STRING")
    else if o.editionAdmission.value == "other_valid_edition" then Unknown("UNSUPPORTED_STANDARD_EDITION")
    else if o.editionAdmission.value != "valid_1_0" then Unknown(OUTSIDE)
    else EvaluateAttributes(o)
  }

  /** The part of the ladder after the edition. */
  function EvaluateAttributes(o: Observation): Claim {
    if o.idIsNonemptyValidString == None then Unknown(OUTSIDE)
    else if !o.idIsNonemptyValidString.value then Fail("ID_REQUIRED_VALID_STRING")
    else if o.sourceAdmission == None then Unknown(OUTSIDE)
    else if o.sourceAdmission.value == "missing_or_invalid" then Fail("SOURCE_REQUIRED_NONEMPTY_JSON_STRING")
    else if o.sourceAdmission.value == "repair_detected" then Unknown("SOURCE_REPAIR_DETECTED")
    else if o.sourceAdmission.value != "admitted_nonempty_json_string" then Unknown(OUTSIDE)
    else if o.typeIsNonemptyValidString == None then Unknown(OUTSIDE)
    else if !o.typeIsNonemptyValidString.value then Fail("TYPE_REQUIRED_VALID_STRING")
    else if o.dataAndDataBase64NotBothPresent == None then Unknown(OUTSIDE)
    else if !o.dataAndDataBase64NotBothPresent.value then Fail("DATA_AND_DATA_BASE64_MUTUALLY_EXCLUSIVE")
    else Claim("PASS", "STRUCTURED_JSON_CORE_ENVELOPE_SUBSET_PASS")
  }

  function ClaimExit(claim: Claim): int {
    if claim.status == "PASS" then 0 else if claim.status == "FAIL" then 10 else 11
  }

  // ---------- the envelope, as section 3.1 of the CloudEvents JSON Event Format has it

  ghost predicate HasText(ms: Members, name: string) {
    LastValue(ms, name).Some? && LastValue(ms, name).value.Text?
  }

  ghost predicate HasValidText(ms: Members, name: string) {
    && HasText(ms, name)
    && var ps := LastValue(ms, name).value.pieces;
       IsCloudEventsString(Decode(ps), LoneSurrogate(ps))
  }

  ghost predicate IsEnvelope(v: Value) {
    && v.Object?
    && var ms := v.members;
       && Distinct(Names(ms))
       && HasText(ms, "specversion") && Decode(LastValue(ms, "specversion").value.pieces) == "1.0"
       && HasValidText(ms, "id")
       && HasValidText(ms, "type")
       && HasText(ms, "source")
       && Decode(LastValue(ms, "source").value.pieces) != ""
       && !LoneSurrogate(LastValue(ms, "source").value.pieces)
       && !("data" in Names(ms) && "data_base64" in Names(ms))
  }

  const EMPTY_BOOK: Book := Book({}, false, map[])

  /** The kept string of a name is the decoded text of its member. */
  lemma KeptText(ms: Members, name: string)
    requires IsSelected(name)
    ensures var scan := Reported(Object(ms));
            && (name in scan.selected <==> name in Names(ms))
            && (TextOf(scan, name).Some? <==> HasText(ms, name))
            && (HasText(ms, name) ==>
                  var ps := LastValue(ms, name).value.pieces;
                  TextOf(scan, name).value == Scanned(StringKind, Decode(ps), LoneSurrogate(ps)))
  {
    hide Names, LastValue, Decode, LoneSurrogate, IsSelected;
    KeepsSelected(EMPTY_BOOK, ms, name);
    LastValueIff(ms, name);
  }

  /** The edition is admitted exactly when the specversion decodes to 1.0: a repaired string never does. */
  lemma EditionIff(ms: Members)
    ensures Edition(Reported(Object(ms))) == "valid_1_0" <==>
            HasText(ms, "specversion") && Decode(LastValue(ms, "specversion").value.pieces) == "1.0"
  {
    hide LastValue, Reported, Decode, LoneSurrogate;
    KeptText(ms, "specversion");
    if HasText(ms, "specversion") {
      var ps := LastValue(ms, "specversion").value.pieces;
      RepairsIffLone(ps);
      if LoneSurrogate(ps) {
        RepairIsVisible(ps);
      }
    }
  }

  /** The verdict, read off the scan without the observation in between. */
  ghost function Verdict(scan: EventScan): Claim {
    if !scan.rootObject then Claim("UNKNOWN", "UNSUPPORTED_ROOT_SHAPE")
    else if scan.duplicate then Claim("UNKNOWN", "DUPLICATE_DECODED_ROOT_NAME")
    else if !HasValidString(scan, "specversion") then Claim("FAIL", "SPECVERSION_REQUIRED_VALID_STRING")
    else if scan.selected["specversion"].text != "1.0" then Claim("UNKNOWN", "UNSUPPORTED_STANDARD_EDITION")
    else AttributesVerdict(scan)
  }

  ghost function AttributesVerdict(scan: EventScan): Claim {
    if !HasValidString(scan, "id") then Claim("FAIL", "ID_REQUIRED_VALID_STRING")
    else if TextOf(scan, "source") == None || TextOf(scan, "source").value.text == "" then
      Claim("FAIL", "SOURCE_REQUIRED_NONEMPTY_JSON_STRING")
    else if TextOf(scan, "source").value.repaired then Claim("UNKNOWN", "SOURCE_REPAIR_DETECTED")
    else if !HasValidString(scan, "type") then Claim("FAIL", "TYPE_REQUIRED_VALID_STRING")
    else if "data" in scan.selected && "data_base64" in scan.selected then
      Claim("FAIL", "DATA_AND_DATA_BASE64_MUTUALLY_EXCLUSIVE")
    else Claim("PASS", "STRUCTURED_JSON_CORE_ENVELOPE_SUBSET_PASS")
  }

  lemma EvaluateAttributesObserved(scan: EventScan, o: Observation)
    requires o.sourceAdmission == None && o.typeIsNonemptyValidString == None && o.dataAndDataBase64NotBothPresent == None
    ensures EvaluateAttributes(ObservedAttributes(scan, o)) == AttributesVerdict(scan)
    ensures ObservedAttributes(scan, o).schema == o.schema
    ensures ObservedAttributes(scan, o).rootAdmission == o.rootAdmission
    ensures ObservedAttributes(scan, o).editionAdmission == o.editionAdmission
  {
    hide HasValidString, Source;
    SourceCases(scan);
  }

  lemma SourceCases(scan: EventScan)
    ensures Source(scan) == "missing_or_invalid" <==> TextOf(scan, "source") == None || TextOf(scan, "source").value.text == ""
    ensures TextOf(scan, "source").Some? && TextOf(scan, "source").value.text != "" ==>
              Source(scan) == if TextOf(scan, "source").value.repaired then "repair_detected" else "admitted_nonempty_json_string"
  {
    hide TextOf;
  }

  /** The observation carries everything the verdict depends on. */
  lemma EvaluateObserved(scan: EventScan, ctx: Context)
    requires ctx.Active()
    ensures Evaluate(ctx, Observed(scan)) == Verdict(scan)
  {
    hide HasValidString, TextOf, EvaluateAttributes, ObservedAttributes, AttributesVerdict;
    if scan.rootObject && !scan.duplicate && Edition(scan) == "valid_1_0" {
      EvaluateAttributesObserved(
        scan, Observation(OBSERVATION_SCHEMA, "admitted_root_object", Some("valid_1_0"), None, None, None, None));
    }
  }

  /** Whatever `Observe` reports, the evaluation never falls into a branch for unreviewed observations. */
  lemma NeverOutside(raw: string, ctx: Context)
    requires ObserveText(raw).Some?
    ensures Evaluate(ctx, ObserveText(raw).value).reasonCode != OUTSIDE
  {
    if ctx.Active() {
      var scan := EventScanSpec.ScanRoot(SkipBlanks(raw)).value;
      EvaluateObserved(scan, ctx);
      VerdictInside(scan);
    }
  }

  lemma VerdictInside(scan: EventScan)
    ensures Verdict(scan).reasonCode != OUTSIDE
    ensures Verdict(scan).status == "PASS" <==>
            && scan.rootObject && !scan.duplicate
            && Edition(scan) == "valid_1_0"
            && HasValidString(scan, "id")
            && Source(scan) == "admitted_nonempty_json_string"
            && HasValidString(scan, "type")
            && !("data" in scan.selected && "data_base64" in scan.selected)
  {
    hide HasValidString, TextOf;
  }

  /** On a tree within the bounds the verdict is PASS exactly for envelopes. */
  lemma PassIffEnvelope(v: Value, ctx: Context)
    requires ctx.Active()
    ensures Evaluate(ctx, Observed(Reported(v))).status == "PASS" <==> IsEnvelope(v)
  {
    hide Evaluate, Observed, Verdict, IsCloudEventsString;
    if v.Object? {
      var ms := v.members;
      DuplicateIff(EMPTY_BOOK, ms);
      assert !Meets({}, Names(ms));
      EditionIff(ms);
      KeptText(ms, "id");
      KeptText(ms, "source");
      KeptText(ms, "type");
      KeptText(ms, "data");
      KeptText(ms, "data_base64");
    }
    EvaluateObserved(Reported(v), ctx);
    VerdictInside(Reported(v));
  }

  /** What the text of a tree gives, whichever tree it is the text of. */
  lemma TextGives(raw: string, e: Element)
    requires ElementOk(e) && PrintElement(e) == raw
    ensures ObserveText(raw)
         == if Utf8Length(raw) <= 1048576 && WithinBounds(e.value) then Some(Observed(Reported(e.value))) else None
  {
    ObserveDocument(e);
  }
}
