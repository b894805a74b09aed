/** Submitting an endpoint configuration, azext_edge/edge/providers/adr/namespace_devices.py: unwrap,
    strip nulls, validate. A shown template can be submitted back as it is. */
module EndpointConfig {
  import opened Json
  import opened Text
  import opened SchemaTemplate
  import opened SchemaValidation
  import opened SchemaAcceptance

  const DRAFT := "http://json-schema.org/draft-07/schema#"

  datatype Loaded = Accepted(config: Json) | TypeMismatch | BadType | NoSchema | Rejected

  /** The configuration inside a `--show-template` wrapper, or the document itself. */
  function Unwrap(parsed: Json, connectorType: string): Loaded {
    if !parsed.Obj? || !Has(parsed.fields, "endpointConfig") then Accepted(parsed)
    else
      var provided := GetOr(parsed.fields, "connectorType", Null);
      if !Truthy(provided) || connectorType == "" then Accepted(Find(parsed.fields, "endpointConfig").value)
      else if !provided.Str? then BadType
      else if Lower(provided.s) != Lower(connectorType) then TypeMismatch
      else Accepted(Find(parsed.fields, "endpointConfig").value)
  }

  /** Validation runs only on a well-formed schema of the draft-07 dialect, or of none. */
  predicate Checked(schema: Dict, wellFormed: bool) {
    wellFormed && GetOr(schema, "$schema", Str("")) in [Str(""), Str(DRAFT)]
  }

  /** `_load_and_validate_endpoint_config`; the accepted text keeps its nulls. */
  ghost function Load(parsed: Json, connectorType: string, skip: bool, schema: Dict, wellFormed: bool): Loaded {
    match Unwrap(parsed, connectorType)
    case Accepted(config) =>
      if skip then Accepted(config)
      else if schema == [] then NoSchema
      else if Checked(schema, wellFormed) && !Valid(Obj(schema), StripNulls(config), Obj(schema)) then Rejected
      else Accepted(config)
    case failure => failure
  }

  predicate Wrapped(parsed: Json) {
    parsed.Obj? && Has(parsed.fields, "endpointConfig")
  }

  /** The document a user means: what a wrapper holds, else the document itself. */
  function Meant(parsed: Json): Json {
    if Wrapped(parsed) then Find(parsed.fields, "endpointConfig").value else parsed
  }

  /** A wrapper names a connector type, and so does the endpoint. */
  predicate TypeGiven(parsed: Json, connectorType: string) {
    Wrapped(parsed) && connectorType != "" && Truthy(GetOr(parsed.fields, "connectorType", Null))
  }

  predicate SameType(parsed: Json, connectorType: string)
    requires parsed.Obj?
  {
    var t := GetOr(parsed.fields, "connectorType", Null);
    t.Str? && Lower(t.s) == Lower(connectorType)
  }

  /** The steps in the source's order; `accepts` is the jsonschema library's verdict on the schema. What is
      accepted is what the user meant and, unless checking is skipped or does not apply, valid once its
      nulls are stripped; nothing valid is rejected. */
  method LoadAndValidate(
    parsed: Json, connectorType: string, skip: bool, schema: Dict, wellFormed: bool, accepts: Json -> bool)
    returns (result: Loaded)
    requires forall j :: accepts(j) <==> Valid(Obj(schema), j, Obj(schema))
    ensures result.Accepted? ==>
              && result.config == Meant(parsed)
              && (TypeGiven(parsed, connectorType) ==> SameType(parsed, connectorType))
              && (!skip && Checked(schema, wellFormed) ==> Valid(Obj(schema), StripNulls(result.config), Obj(schema)))
    ensures result.Rejected? ==>
              !skip && Checked(schema, wellFormed) && !Valid(Obj(schema), StripNulls(Meant(parsed)), Obj(schema))
    ensures result.TypeMismatch? || result.BadType? <==>
              TypeGiven(parsed, connectorType) && !SameType(parsed, connectorType)
    ensures result.NoSchema? ==> !skip && schema == []
    ensures skip && !TypeGiven(parsed, connectorType) ==> result.Accepted?
    ensures result == Load(parsed, connectorType, skip, schema, wellFormed)
  {
    var config := parsed;
    if parsed.Obj? && Has(parsed.fields, "endpointConfig") {
      var provided := GetOr(parsed.fields, "connectorType", Null);
      if Truthy(provided) && connectorType != "" {
        if !provided.Str? { return BadType; }
        if Lower(provided.s) != Lower(connectorType) { return TypeMismatch; }
      }
      config := Find(parsed.fields, "endpointConfig").value;
    }
    if skip { return Accepted(config); }
    if schema == [] { return NoSchema; }
    if Checked(schema, wellFormed) {
      var data := StripNulls(config);
      if !accepts(data) { return Rejected; }
    }
    result := Accepted(config);
  }

  /** Main theorem: which document is submitted, and which outcome it has, read off the document. A wrapper
      is an object with an "endpointConfig" entry; its connector type counts when Python reads it as true and
      the endpoint has one. */
  lemma {:induction false} LoadIs(parsed: Json, connectorType: string, skip: bool, schema: Dict, wellFormed: bool)
    ensures var wrapper := parsed.Obj? && Find(parsed.fields, "endpointConfig").Some?;
            var meant := if wrapper then Find(parsed.fields, "endpointConfig").value else parsed;
            var stated := if wrapper then Find(parsed.fields, "connectorType") else None;
            var nothing := {None, Some(Null), Some(Bool(false)), Some(Num(0.0)), Some(Str("")), Some(Arr([])),
                            Some(Obj([]))};
            var compared := connectorType != "" && stated !in nothing;
            var odd := compared && !stated.value.Str?;
            var other := compared && stated.value.Str? && !SameIgnoringCase(stated.value.s, connectorType);
            var dialects := {None, Some(Str("")), Some(Str("http://json-schema.org/draft-07/schema#"))};
            var checked := wellFormed && Find(schema, "$schema") in dialects;
            var invalid := NeverValidates(schema, StripNulls(meant));
            Load(parsed, connectorType, skip, schema, wellFormed)
            == if odd then BadType
               else if other then TypeMismatch
               else if !skip && schema == [] then NoSchema
               else if !skip && checked && invalid then Rejected
               else Accepted(meant)
  {
    DialectIff(schema);
    if parsed.Obj? && Find(parsed.fields, "endpointConfig").Some? {
      var stated := Find(parsed.fields, "connectorType");
      StatedIff(stated);
      if stated.Some? && stated.value.Str? { SameIff(stated.value.s, connectorType); }
      assert Has(parsed.fields, "endpointConfig");
      assert GetOr(parsed.fields, "connectorType", Null) == match stated case Some(v) => v case None => Null;
    }
    InvalidIff(schema, StripNulls(Meant(parsed)));
  }

  ghost predicate NeverValidates(schema: Dict, j: Json) {
    forall n: nat :: !Validates(n, Obj(schema), j, Obj(schema))
  }

  lemma InvalidIff(schema: Dict, j: Json)
    ensures !Valid(Obj(schema), j, Obj(schema)) <==> NeverValidates(schema, j)
  {
    if Valid(Obj(schema), j, Obj(schema)) {
      var n: nat :| Validates(n, Obj(schema), j, Obj(schema));
    }
    forall n: nat | Validates(n, Obj(schema), j, Obj(schema)) ensures Valid(Obj(schema), j, Obj(schema)) {}
  }

  predicate SameIgnoringCase(s: string, t: string) {
    |s| == |t| && forall i | 0 <= i < |s| :: s[i] == t[i] || SameLetter(s[i], t[i])
  }

  predicate SameLetter(c: char, d: char) {
    exists i | 0 <= i < 26 ::
      {c, d} == {"ABCDEFGHIJKLMNOPQRSTUVWXYZ"[i], "abcdefghijklmnopqrstuvwxyz"[i]}
  }

  lemma StatedIff(stated: Option<Json>)
    ensures stated in {None, Some(Null), Some(Bool(false)), Some(Num(0.0)), Some(Str("")), Some(Arr([])),
                       Some(Obj([]))}
            <==> !Truthy(match stated case Some(v) => v case None => Null)
  {
  }

  lemma {:induction false} DialectIff(schema: Dict)
    ensures Find(schema, "$schema") in {None, Some(Str("")), Some(Str("http://json-schema.org/draft-07/schema#"))}
            <==> GetOr(schema, "$schema", Str("")) in [Str(""), Str(DRAFT)]
  {
  }

  lemma SameIff(s: string, t: string)
    ensures SameIgnoringCase(s, t) <==> Lower(s) == Lower(t)
  {
    forall c: char, d: char ensures c == d || SameLetter(c, d) <==> Fold(c) == Fold(d) { LetterIff(c, d); }
    if Lower(s) == Lower(t) {
      assert |s| == |t|;
      forall i | 0 <= i < |s| ensures s[i] == t[i] || SameLetter(s[i], t[i]) {
        assert Lower(s)[i] == Lower(t)[i];
      }
    }
  }

  lemma LetterIff(c: char, d: char)
    ensures c == d || SameLetter(c, d) <==> Fold(c) == Fold(d)
  {
    if c != d && Fold(c) == Fold(d) {
      var i := Fold(c) as int - 97;
      assert {c, d} == {"ABCDEFGHIJKLMNOPQRSTUVWXYZ"[i], "abcdefghijklmnopqrstuvwxyz"[i]};
    }
    if SameLetter(c, d) {
      var i :| 0 <= i < 26 && {c, d} == {"ABCDEFGHIJKLMNOPQRSTUVWXYZ"[i], "abcdefghijklmnopqrstuvwxyz"[i]};
      assert c in {c, d} && d in {c, d};
      FoldIs(i, c);
    }
  }

  /** `_handle_show_template` in config mode. */
  function Shown(connectorType: string, template: Json): Json {
    Obj([Field("connectorType", Str(connectorType)), Field("endpointConfig", template)])
  }

  lemma UnwrapShown(shownAs: string, template: Json, connectorType: string)
    requires Lower(shownAs) == Lower(connectorType)
    ensures Unwrap(Shown(shownAs, template), connectorType) == Accepted(template)
  {
    var d := Shown(shownAs, template).fields;
    assert d[1..] == [Field("endpointConfig", template)];
    assert Find(d, "endpointConfig") == Find(d[1..], "endpointConfig") == Some(template);
  }

  /** Whatever the shown schema accepts, the one checked against accepts. */
  ghost predicate Covers(checked: Dict, shown: Dict) {
    forall j: Json :: Valid(Obj(shown), j, Obj(shown)) ==> Valid(Obj(checked), j, Obj(checked))
  }

  /** Main theorem: a non-null template without a "required fields" warning is accepted when it is
      submitted back unchanged, in its wrapper and with the connector type in any letter case, to a check
      against the same schema or one that accepts no less. */
  lemma {:induction false} TemplateSubmits(
    depth: nat, shown: Dict, checked: Dict, shownAs: string, connectorType: string, wellFormed: bool)
    requires checked != [] && InFragment(depth, Obj(shown), Obj(shown)) && Covers(checked, shown)
    requires Lower(shownAs) == Lower(connectorType)
    ensures var o := SlimSchema(depth, Obj(shown), Config, "", Obj(shown));
            && o.Done?
            && (NoneRequired(o.warnings) && o.value != Null
                ==> Load(Shown(shownAs, o.value), connectorType, false, checked, wellFormed) == Accepted(o.value))
  {
    TemplateValidates(depth, Obj(shown), "", Obj(shown));
    UnwrapShown(shownAs, SlimSchema(depth, Obj(shown), Config, "", Obj(shown)).value, connectorType);
  }

  /** When validation applies and the two schemas accept the same, a template is accepted back exactly
      when every unset required field lies in an array item that null stripping drops. */
  lemma {:induction false} TemplateSubmitsIff(
    depth: nat, shown: Dict, checked: Dict, shownAs: string, connectorType: string)
    requires checked != [] && InFragment(depth, Obj(shown), Obj(shown))
    requires Covers(checked, shown) && Covers(shown, checked)
    requires Checked(checked, true) && Lower(shownAs) == Lower(connectorType)
    ensures var o := SlimSchema(depth, Obj(shown), Config, "", Obj(shown));
            && o.Done?
            && (Load(Shown(shownAs, o.value), connectorType, false, checked, true) == Accepted(o.value)
                <==> !Unset(depth, Obj(shown), "", Obj(shown))
                     && (o.value == Null ==> Valid(Obj(shown), Null, Obj(shown))))
  {
    AcceptedIff(depth, Obj(shown), "", Obj(shown));
    UnwrapShown(shownAs, SlimSchema(depth, Obj(shown), Config, "", Obj(shown)).value, connectorType);
  }
}
