/** What a user is shown after config mode as it runs, on any document. */
module InPlaceReport {
  import opened Json
  import opened SchemaTemplate
  import opened InPlace
  import opened WarningMerge

  /** No "required fields" warning of a run is without a name, whatever the run has changed. */
  lemma {:induction false} RunNames(depth: nat, h: Heap, c: Doc, path: string, root: Doc)
    requires Slim(depth, h, c, path, root).Finished?
    ensures Named(Slim(depth, h, c, path, root).warnings)
    decreases depth, 0
  {
    var (step, now) := StepOf(h, c, root);
    match step
    case Rewritten(next, _) => RunNames(depth - 1, now, next, path, root);
    case Single(items, _) => RunNames(depth - 1, now, items, path + "[]", root);
    case Loop(props, required) =>
      var n := |Content(now, props)|;
      EntriesNames(depth - 1, now, props, 0, n, path, root);
      var fs := SlimEntries(depth - 1, now, props, 0, n, path, root);
      NamedConcat(fs.warnings, Noted(NullRequired(PlainEntries(fs.value), NamesOf(now, required).value, path)));
    case _ =>
  }

  lemma {:induction false} EntriesNames(depth: nat, h: Heap, props: Doc, i: nat, n: nat, path: string, root: Doc)
    requires props.Dict? && i <= n && SlimEntries(depth, h, props, i, n, path, root).Finished?
    ensures Named(SlimEntries(depth, h, props, i, n, path, root).warnings)
    decreases depth, 1, n - i
  {
    if i < n {
      var f := Content(h, props)[i];
      RunNames(depth, h, f.value, JoinPath(path, f.key), root);
      var now := Slim(depth, h, f.value, JoinPath(path, f.key), root).heap;
      EntriesNames(depth, now, props, i + 1, n, path, root);
    }
  }

  /** Main theorem: after any finished run in config mode the user sees every collapsed-union message in
      order, then one message naming every null required field in the order the run met them. */
  lemma {:induction false} RunReport(depth: nat, h: Heap, c: Doc, path: string, root: Doc, wording: Warning -> string)
    requires Slim(depth, h, c, path, root).Finished?
    ensures var ws := Slim(depth, h, c, path, root).warnings;
            Consolidated(RenderAll(ws, wording))
            == RenderAll(CollapsedOnly(ws), wording)
               + if AllNames(ws) == [] then [] else [PREFIX + Join(Quoted(AllNames(ws)))]
  {
    RunNames(depth, h, c, path, root);
    ConsolidatedReport(Slim(depth, h, c, path, root).warnings, wording);
  }
}
