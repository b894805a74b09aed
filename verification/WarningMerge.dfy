/** `_consolidate_warnings`: one combined "required fields" message, everything else untouched. */
module WarningMerge {
  import opened Json
  import opened SchemaTemplate

  /** The first word tells a "required fields" message from the other kind, which starts with "Field". */
  const FIRST_WORD := "The"

  const PREFIX :=
    FIRST_WORD + " following required fields have no default value; "
    + "replace null with a real value before applying: "

  const SEPARATOR := ", "

  /** `text.split(", ")`. */
  function Split(text: string): (parts: seq<string>)
    ensures |parts| > 0
  {
    if |text| < 2 then [text]
    else if text[..2] == SEPARATOR then [""] + Split(text[2..])
    else var rest := Split(text[1..]); [[text[0]] + rest[0]] + rest[1..]
  }

  /** `", ".join(parts)`. */
  function Join(parts: seq<string>): string {
    if parts == [] then ""
    else if |parts| == 1 then parts[0]
    else parts[0] + SEPARATOR + Join(parts[1..])
  }

  lemma {:induction false} JoinSplit(text: string)
    ensures Join(Split(text)) == text
  {
    if |text| >= 2 {
      if text[..2] == SEPARATOR {
        JoinSplit(text[2..]);
        assert Split(text)[1..] == Split(text[2..]);
        assert text == "" + SEPARATOR + text[2..];
      } else {
        var rest := Split(text[1..]);
        JoinSplit(text[1..]);
        assert Split(text)[1..] == rest[1..];
        assert text == [text[0]] + text[1..];
        assert Join(Split(text)) == [text[0]] + Join(rest) by {
          if |rest| > 1 {
            assert ([text[0]] + rest[0]) + SEPARATOR + Join(rest[1..])
                == [text[0]] + (rest[0] + SEPARATOR + Join(rest[1..]));
          }
        }
      }
    }
  }

  lemma {:induction false} JoinConcat(a: seq<string>, b: seq<string>)
    requires a != [] && b != []
    ensures Join(a + b) == Join(a) + SEPARATOR + Join(b)
  {
    assert (a + b)[1..] == a[1..] + b;
    if |a| > 1 {
      JoinConcat(a[1..], b);
      assert a[0] + SEPARATOR + (Join(a[1..]) + SEPARATOR + Join(b))
          == (a[0] + SEPARATOR + Join(a[1..])) + SEPARATOR + Join(b);
    } else {
      assert a[1..] + b == b;
    }
  }

  // ---------- what the merged list is ----------

  function Others(ws: seq<string>): seq<string> {
    if ws == [] then []
    else if PREFIX <= ws[0] then Others(ws[1..])
    else [ws[0]] + Others(ws[1..])
  }

  /** The name lists carried by the "required fields" messages. */
  function Texts(ws: seq<string>): seq<string> {
    if ws == [] then []
    else if PREFIX <= ws[0] then [ws[0][|PREFIX|..]] + Texts(ws[1..])
    else Texts(ws[1..])
  }

  function Consolidated(ws: seq<string>): seq<string> {
    Others(ws) + if Texts(ws) == [] then [] else [PREFIX + Join(Texts(ws))]
  }

  lemma {:induction false} OthersConcat(a: seq<string>, b: seq<string>)
    ensures Others(a + b) == Others(a) + Others(b) && Texts(a + b) == Texts(a) + Texts(b)
  {
    if a == [] {
      assert a + b == b;
    } else {
      assert (a + b)[1..] == a[1..] + b;
      OthersConcat(a[1..], b);
    }
  }

  method ConsolidateWarnings(warnings: seq<string>) returns (other: seq<string>)
    ensures other == Consolidated(warnings)
  {
    var reqFields: seq<string> := [];
    other := [];
    for i := 0 to |warnings|
      invariant other == Others(warnings[..i])
      invariant reqFields == [] <==> Texts(warnings[..i]) == []
      invariant Join(reqFields) == Join(Texts(warnings[..i]))
    {
      var w := warnings[i];
      assert warnings[..i + 1] == warnings[..i] + [w];
      OthersConcat(warnings[..i], [w]);
      assert [w][1..] == [];
      if PREFIX <= w {
        var names := Split(w[|PREFIX|..]);
        assert Texts([w]) == [w[|PREFIX|..]];
        JoinSplit(w[|PREFIX|..]);
        if reqFields != [] {
          JoinConcat(reqFields, names);
          JoinConcat(Texts(warnings[..i]), [w[|PREFIX|..]]);
          assert Join([w[|PREFIX|..]]) == Join(names);
        } else {
          assert reqFields + names == names;
          assert Texts(warnings[..i + 1]) == [w[|PREFIX|..]];
        }
        reqFields := reqFields + names;
      } else {
        assert Texts(warnings[..i + 1]) == Texts(warnings[..i]);
        other := other + [w];
      }
    }
    assert warnings[..|warnings|] == warnings;
    if reqFields != [] {
      other := other + [PREFIX + Join(reqFields)];
    }
  }

  lemma {:induction false} OthersStable(ws: seq<string>)
    ensures Others(Others(ws)) == Others(ws) && Texts(Others(ws)) == []
  {
    if ws != [] {
      OthersStable(ws[1..]);
      if !(PREFIX <= ws[0]) { assert Others(ws)[1..] == Others(ws[1..]); }
    }
  }

  /** Main theorem, for any messages: those without the prefix are kept where they are, and the text behind it
      in the others is gathered in order, message by message. */
  lemma {:induction false} MessagesSorted(a: seq<string>, w: string)
    ensures var prefix := "The" + " following required fields have no default value; "
                          + "replace null with a real value before applying: ";
            var marked := |w| >= |prefix| && w[..|prefix|] == prefix;
            && Others([]) == [] && Texts([]) == []
            && Others(a + [w]) == Others(a) + (if marked then [] else [w])
            && Texts(a + [w]) == Texts(a) + (if marked then [w[|prefix|..]] else [])
            && Consolidated(a) == Others(a) + if Texts(a) == [] then [] else [prefix + Join(Texts(a))]
  {
    OthersConcat(a, [w]);
    PrefixText();
    assert [w][1..] == [];
    assert PREFIX <= w <==> |w| >= |PREFIX| && w[..|PREFIX|] == PREFIX;
  }

  lemma PrefixText()
    ensures PREFIX == "The" + " following required fields have no default value; "
                      + "replace null with a real value before applying: "
  {
  }

  /** Names are listed in single quotes, with a comma and a space between them. */
  lemma {:induction false} NamesListed(names: seq<string>, name: string)
    ensures Join([]) == "" && Join(Quoted([name])) == "'" + name + "'"
    ensures names != [] ==> Join(Quoted(names + [name])) == Join(Quoted(names)) + ", " + ("'" + name + "'")
  {
    assert [name][1..] == [] && Quoted([name]) == ["'" + name + "'"];
    QuotedConcat(names, [name]);
    if names != [] { JoinConcat(Quoted(names), Quoted([name])); }
  }

  /** The names and the collapsed unions of a list of warnings, in order. */
  lemma {:induction false} WarningsSorted(a: seq<Warning>, b: seq<Warning>, names: seq<string>, path: string, n: nat)
    ensures AllNames([]) == [] && CollapsedOnly([]) == []
    ensures AllNames([RequiredNull(names)]) == names && CollapsedOnly([RequiredNull(names)]) == []
    ensures AllNames([Collapsed(path, n)]) == [] && CollapsedOnly([Collapsed(path, n)]) == [Collapsed(path, n)]
    ensures AllNames(a + b) == AllNames(a) + AllNames(b) && CollapsedOnly(a + b) == CollapsedOnly(a) + CollapsedOnly(b)
  {
    assert [RequiredNull(names)][1..] == [] && [Collapsed(path, n)][1..] == [];
    assert names + AllNames([]) == names && [Collapsed(path, n)] + CollapsedOnly([]) == [Collapsed(path, n)];
    if a == [] {
      assert a + b == b;
    } else {
      assert (a + b)[1..] == a[1..] + b;
      WarningsSorted(a[1..], b, names, path, n);
    }
  }

  /** Consolidating twice changes nothing more. */
  lemma ConsolidateIdempotent(ws: seq<string>)
    ensures Consolidated(Consolidated(ws)) == Consolidated(ws)
  {
    OthersStable(ws);
    var combined := PREFIX + Join(Texts(ws));
    if Texts(ws) != [] {
      var one: seq<string> := [combined];
      OthersConcat(Others(ws), one);
      assert combined[|PREFIX|..] == Join(Texts(ws)) && one[1..] == [];
      assert Texts([combined]) == [Join(Texts(ws))] && Others([combined]) == [];
      assert Join([Join(Texts(ws))]) == Join(Texts(ws));
    } else {
      assert Consolidated(ws) == Others(ws);
    }
  }

  // ---------- the messages the compiler produces ----------

  function Quoted(names: seq<string>): seq<string> {
    if names == [] then [] else ["'" + names[0] + "'"] + Quoted(names[1..])
  }

  /** The message text; `wording` stands for the text about a collapsed `oneOf`. */
  function Render(w: Warning, wording: Warning -> string): string {
    match w
    case RequiredNull(names) => PREFIX + Join(Quoted(names))
    case Collapsed(_, _) => "Field " + wording(w)
  }

  function RenderAll(ws: seq<Warning>, wording: Warning -> string): seq<string> {
    if ws == [] then [] else [Render(ws[0], wording)] + RenderAll(ws[1..], wording)
  }

  function AllNames(ws: seq<Warning>): seq<string> {
    if ws == [] then []
    else if ws[0].RequiredNull? then ws[0].names + AllNames(ws[1..])
    else AllNames(ws[1..])
  }

  function CollapsedOnly(ws: seq<Warning>): seq<Warning> {
    if ws == [] then []
    else if ws[0].Collapsed? then [ws[0]] + CollapsedOnly(ws[1..])
    else CollapsedOnly(ws[1..])
  }

  lemma {:induction false} QuotedConcat(a: seq<string>, b: seq<string>)
    ensures Quoted(a + b) == Quoted(a) + Quoted(b)
  {
    if a == [] {
      assert a + b == b;
    } else {
      assert (a + b)[1..] == a[1..] + b;
      QuotedConcat(a[1..], b);
    }
  }

  lemma RenderKind(w: Warning, wording: Warning -> string)
    ensures PREFIX <= Render(w, wording) <==> w.RequiredNull?
    ensures w.RequiredNull? ==> Render(w, wording)[|PREFIX|..] == Join(Quoted(w.names))
  {
    if w.Collapsed? {
      assert Render(w, wording)[0] == 'F' && PREFIX[0] == FIRST_WORD[0];
    }
  }

  /** After consolidation the user sees every collapsed-union message in order, then one message
      naming every null required field in the order the compiler met them. */
  lemma {:induction false} ConsolidatedReport(ws: seq<Warning>, wording: Warning -> string)
    requires Named(ws)
    ensures Consolidated(RenderAll(ws, wording))
            == RenderAll(CollapsedOnly(ws), wording)
               + if AllNames(ws) == [] then [] else [PREFIX + Join(Quoted(AllNames(ws)))]
  {
    ReportParts(ws, wording);
  }

  lemma {:induction false} ReportParts(ws: seq<Warning>, wording: Warning -> string)
    requires Named(ws)
    ensures Others(RenderAll(ws, wording)) == RenderAll(CollapsedOnly(ws), wording)
    ensures Texts(RenderAll(ws, wording)) == [] <==> AllNames(ws) == []
    ensures Join(Texts(RenderAll(ws, wording))) == Join(Quoted(AllNames(ws)))
  {
    if ws != [] {
      var w := ws[0];
      assert w in ws && forall v | v in ws[1..] :: v in ws;
      ReportParts(ws[1..], wording);
      RenderKind(w, wording);
      assert RenderAll(ws, wording)[1..] == RenderAll(ws[1..], wording);
      var rest := Texts(RenderAll(ws[1..], wording));
      if w.RequiredNull? {
        QuotedConcat(w.names, AllNames(ws[1..]));
        assert Texts(RenderAll(ws, wording)) == [Join(Quoted(w.names))] + rest;
        if AllNames(ws[1..]) != [] {
          assert Quoted(AllNames(ws[1..])) != [] && Quoted(w.names) != [];
          JoinConcat(Quoted(w.names), Quoted(AllNames(ws[1..])));
          JoinConcat([Join(Quoted(w.names))], rest);
        } else {
          assert w.names + AllNames(ws[1..]) == w.names;
        }
      } else {
        assert CollapsedOnly(ws)[1..] == CollapsedOnly(ws[1..]);
      }
    }
  }

  // ---------- the compiler's own warnings ----------

  predicate Named(ws: seq<Warning>) {
    forall w | w in ws :: w.RequiredNull? ==> w.names != []
  }

  lemma NamedConcat(a: seq<Warning>, b: seq<Warning>)
    requires Named(a) && Named(b)
    ensures Named(a + b)
  {
  }

  /** No "required fields" warning of the compiler is without a name. */
  lemma {:induction false} CompilerNames(depth: nat, schema: Json, mode: Mode, path: string, root: Json)
    requires SlimSchema(depth, schema, mode, path, root).Done?
    ensures Named(SlimSchema(depth, schema, mode, path, root).warnings)
    decreases depth, 0
  {
    ShapeNames(depth - 1, ShapeOf(schema, mode, root), mode, path, root);
  }

  lemma {:induction false} ShapeNames(depth: nat, shape: Shape, mode: Mode, path: string, root: Json)
    requires SlimShape(depth, shape, mode, path, root).Done?
    ensures Named(SlimShape(depth, shape, mode, path, root).warnings)
    decreases depth, 3
  {
    match shape
    case Again(next, _) => CompilerNames(depth, next, mode, path, root);
    case Union(_, _, subs) => ItemsNames(depth, subs, mode, path, root);
    case Array(items, _, _) => CompilerNames(depth, items, mode, path + "[]", root);
    case Object(props, required) =>
      FieldsNames(depth, props, mode, path, root);
      if mode.Config? {
        var fs := SlimFields(depth, props, mode, path, root);
        NamedConcat(fs.warnings, Noted(NullRequired(fs.value, RequiredNames(required).value, path)));
      }
    case _ =>
  }

  lemma {:induction false} ItemsNames(depth: nat, subs: seq<Json>, mode: Mode, path: string, root: Json)
    requires SlimItems(depth, subs, mode, path, root).Done?
    ensures Named(SlimItems(depth, subs, mode, path, root).warnings)
    decreases depth, 1, |subs|
  {
    if subs != [] {
      CompilerNames(depth, subs[0], mode, path, root);
      ItemsNames(depth, subs[1..], mode, path, root);
    }
  }

  lemma {:induction false} FieldsNames(depth: nat, props: Dict, mode: Mode, path: string, root: Json)
    requires SlimFields(depth, props, mode, path, root).Done?
    ensures Named(SlimFields(depth, props, mode, path, root).warnings)
    decreases depth, 1, |props|
  {
    if props != [] {
      CompilerNames(depth, props[0].value, mode, JoinPath(path, props[0].key), root);
      FieldsNames(depth, props[1..], mode, path, root);
    }
  }

  /** What the user is shown after a run. */
  lemma {:induction false} CompilerReport(
    depth: nat, schema: Json, mode: Mode, path: string, root: Json, wording: Warning -> string)
    requires SlimSchema(depth, schema, mode, path, root).Done?
    ensures var ws := SlimSchema(depth, schema, mode, path, root).warnings;
            Consolidated(RenderAll(ws, wording))
            == RenderAll(CollapsedOnly(ws), wording)
               + if AllNames(ws) == [] then [] else [PREFIX + Join(Quoted(AllNames(ws)))]
  {
    CompilerNames(depth, schema, mode, path, root);
    ConsolidatedReport(SlimSchema(depth, schema, mode, path, root).warnings, wording);
  }
}
