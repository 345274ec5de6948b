/** The server middleware module (`createServerFile`): the middleware source is wrapped in a
    module, the line holding the async-local-storage marker is replaced by a block that installs
    the request store, the compiled-bundles placeholder is optionally filled in, and tabs become
    two spaces. Also `createCompiledMessagesObject`, the dictionary from bundle id to locale to
    message expression that fills the placeholder. */
module ServerFile {
  import opened Wrappers
  import opened Strings

  const Marker := "// %async-local-storage"
  const MissingMarkerError := "Expected a single %async-local-storage marker in server middleware."
  const BundlesPlaceholder := "const compiledBundles = {};"

  /** The compiler options `createServerFile` reads. */
  datatype ServerFileOptions = ServerFileOptions(experimentalMiddlewareLocaleSplitting: bool, disableAsyncLocalStorage: bool)

  /** One locale's compiled message of a bundle: its module code. */
  datatype CompiledMessage = CompiledMessage(locale: string, code: string)

  /** A compiled bundle: its id and its messages in `Object.entries` order. */
  datatype CompiledBundle = CompiledBundle(id: string, messages: seq<CompiledMessage>)

  /** The compiled-messages dictionary: bundle id to locale to message expression. */
  type MessagesObject = map<string, map<string, string>>

  /** The module text wrapped around the (already pruned) middleware source. */
  function ServerModuleCode(middleware: string): (code: string)
    ensures |code| > |middleware| && code[|code| - 1] == '\n'
    ensures code[|code| - 1 - |middleware|..|code| - 1] == middleware
  {
    "\nimport * as runtime from \"./runtime.js\";\n\n" + middleware + "\n"
  }

  // ---------------------------------------------------------------------------------------
  // The marker line

  /** Where the marker line lies: its first character, the marker, and the index just past
      the line's newline (or the end of the text). */
  datatype MarkerLine = MarkerLine(start: nat, marker: nat, end: nat)

  predicate IsFirstOccurrence(code: string, pat: string, i: nat) {
    OccursAt(code, pat, i) && forall j: nat :: j < i ==> !OccursAt(code, pat, j)
  }

  /** `s` is the start of the line that holds index `m`. */
  predicate IsLineStartOf(code: string, s: nat, m: nat) {
    s <= m <= |code|
    && (s == 0 || code[s - 1] == '\n')
    && forall k :: s <= k < m ==> code[k] != '\n'
  }

  /** `e` is just past the newline that ends the line holding index `m`, or the end of the
      text when no newline follows. */
  predicate IsLineEndOf(code: string, m: nat, e: nat) {
    m < e <= |code|
    && (forall k :: m <= k < e - 1 ==> code[k] != '\n')
    && (code[e - 1] == '\n' || e == |code|)
  }

  lemma LineEndFound(code: string, m: nat, l: nat)
    requires m <= l && OccursAt(code, "\n", l)
    requires forall j: nat :: m <= j < l ==> !OccursAt(code, "\n", j)
    ensures IsLineEndOf(code, m, l + 1)
  {
    assert code[l] == code[l..l + 1][0];
    forall k | m <= k < l
      ensures code[k] != '\n'
    {
      assert !OccursAt(code, "\n", k);
      assert code[k..k + 1] == [code[k]];
    }
  }

  lemma NoLineEnd(code: string, m: nat)
    requires m < |code|
    requires forall j: nat :: m <= j ==> !OccursAt(code, "\n", j)
    ensures IsLineEndOf(code, m, |code|)
  {
    forall k | m <= k < |code|
      ensures code[k] != '\n'
    {
      assert !OccursAt(code, "\n", k);
      assert code[k..k + 1] == [code[k]];
    }
  }

  /** `indexOf` of the marker, then `lastIndexOf("\n", markerIndex) + 1` and
      `indexOf("\n", markerIndex)`: the line holding the first marker. */
  function FindMarkerLine(code: string): (r: Option<MarkerLine>)
    ensures r.None? <==> !Contains(code, Marker)
    ensures r.Some? ==>
      IsFirstOccurrence(code, Marker, r.value.marker)
      && IsLineStartOf(code, r.value.start, r.value.marker)
      && IsLineEndOf(code, r.value.marker, r.value.end)
  {
    match IndexOf(code, Marker, 0)
    case None => None
    case Some(m) =>
      assert code[m] == code[m..m + |Marker|][0] == '/';
      var s := LastIndexOfChar(code, '\n', m) + 1;
      match IndexOf(code, "\n", m)
      case None =>
        NoLineEnd(code, m);
        Some(MarkerLine(s, m, |code|))
      case Some(l) =>
        LineEndFound(code, m, l);
        Some(MarkerLine(s, m, l + 1))
  }

  /** The marker line's text before the marker, tabs written as two spaces. */
  function MarkerIndent(code: string, line: MarkerLine): (indent: string)
    requires line.start <= line.marker <= |code|
    requires IsLineStartOf(code, line.start, line.marker)
    ensures '\t' !in indent && '\n' !in indent
  {
    var text := code[line.start..line.marker];
    assert '\n' !in text by {
      forall k | 0 <= k < |text| ensures text[k] != '\n' {
        assert text[k] == code[line.start + k];
      }
    }
    ReplaceTabs(text)
  }

  // The block's line texts, written in pieces so that each piece is a short literal.
  const AsyncStore := "Async" + "LocalStorage"
  const StoreMissing := "!runtime.server" + AsyncStore + ") {"
  const OverwriteStore := "runtime.overwriteServer" + AsyncStore + "("
  const IfStoreMissing := "if (!runtime.disable" + AsyncStore + " && " + StoreMissing
  const ImportStore := "const { " + AsyncStore + " } = " + "await import(\"async_hooks\");"
  const InstallStore := OverwriteStore + "new " + AsyncStore + "());"
  const ElseIfStoreMissing := "} else if (" + StoreMissing
  const InstallMock := OverwriteStore + "createMock" + AsyncStore + "());"
  const IfMockMissing := "if (" + StoreMissing
  const CloseBlock := "}"

  predicate Plain(text: string) {
    '\n' !in text && '\t' !in text
  }

  lemma PlainConcat(a: string, b: string)
    requires Plain(a) && Plain(b)
    ensures Plain(a + b)
  {
  }

  lemma AsyncStoreIsPlain()
    ensures Plain(AsyncStore)
  {
    assert Plain("Async") && Plain("LocalStorage");
    PlainConcat("Async", "LocalStorage");
  }

  lemma StoreMissingIsPlain()
    ensures Plain(StoreMissing)
  {
    AsyncStoreIsPlain();
    assert Plain("!runtime.server") && Plain(") {");
    PlainConcat("!runtime.server", AsyncStore);
    PlainConcat("!runtime.server" + AsyncStore, ") {");
  }

  lemma OverwriteStoreIsPlain()
    ensures Plain(OverwriteStore)
  {
    AsyncStoreIsPlain();
    assert Plain("runtime.overwriteServer") && Plain("(");
    PlainConcat("runtime.overwriteServer", AsyncStore);
    PlainConcat("runtime.overwriteServer" + AsyncStore, "(");
  }

  lemma IfStoreMissingIsPlain()
    ensures Plain(IfStoreMissing)
  {
    AsyncStoreIsPlain();
    StoreMissingIsPlain();
    assert Plain("if (!runtime.disable") && Plain(" && ");
    PlainConcat("if (!runtime.disable", AsyncStore);
    PlainConcat("if (!runtime.disable" + AsyncStore, " && ");
    PlainConcat("if (!runtime.disable" + AsyncStore + " && ", StoreMissing);
  }

  lemma ImportStoreIsPlain()
    ensures Plain(ImportStore)
  {
    AsyncStoreIsPlain();
    assert Plain("const { ") && Plain(" } = ");
    assert Plain("await import(\"async_hooks\");");
    PlainConcat("const { ", AsyncStore);
    PlainConcat("const { " + AsyncStore, " } = ");
    PlainConcat("const { " + AsyncStore + " } = ", "await import(\"async_hooks\");");
  }

  lemma InstallStoreIsPlain()
    ensures Plain(InstallStore)
  {
    AsyncStoreIsPlain();
    OverwriteStoreIsPlain();
    assert Plain("new ") && Plain("());");
    PlainConcat(OverwriteStore, "new ");
    PlainConcat(OverwriteStore + "new ", AsyncStore);
    PlainConcat(OverwriteStore + "new " + AsyncStore, "());");
  }

  lemma InstallMockIsPlain()
    ensures Plain(InstallMock)
  {
    AsyncStoreIsPlain();
    OverwriteStoreIsPlain();
    assert Plain("createMock") && Plain("());");
    PlainConcat(OverwriteStore, "createMock");
    PlainConcat(OverwriteStore + "createMock", AsyncStore);
    PlainConcat(OverwriteStore + "createMock" + AsyncStore, "());");
  }

  lemma MockLinesArePlain()
    ensures Plain(ElseIfStoreMissing) && Plain(IfMockMissing) && Plain(CloseBlock)
  {
    StoreMissingIsPlain();
    assert Plain("} else if (") && Plain("if (") && Plain("}");
    PlainConcat("} else if (", StoreMissing);
    PlainConcat("if (", StoreMissing);
  }

  /** The indices of the lines that carry the inner indentation. */
  function InnerLines(disableAsyncLocalStorage: bool): set<nat> {
    if disableAsyncLocalStorage then {1} else {1, 2, 4}
  }

  /** One line of the block: the indent, two more spaces for an inner line, then the text. */
  function BlockLine(indent: string, inner: bool, text: string): (line: string)
    ensures StartsWith(line, indent)
    ensures inner ==> StartsWith(line, indent + "  ")
    ensures Plain(indent) && Plain(text) ==> Plain(line)
    ensures '\n' !in indent && '\n' !in text ==> '\n' !in line
  {
    if inner then
      assert indent + "  " + text == indent + ("  " + text);
      indent + "  " + text
    else indent + text
  }

  /** The lines that stand in for the marker line. */
  function AsyncLocalStorageBlock(indent: string, disableAsyncLocalStorage: bool): (lines: seq<string>)
    ensures |lines| == if disableAsyncLocalStorage then 3 else 6
    ensures forall k :: 0 <= k < |lines| ==> StartsWith(lines[k], indent)
    ensures forall k :: k in InnerLines(disableAsyncLocalStorage) ==> k < |lines| && StartsWith(lines[k], indent + "  ")
    ensures '\n' !in indent ==> forall k :: 0 <= k < |lines| ==> '\n' !in lines[k]
    ensures Plain(indent) ==> forall k :: 0 <= k < |lines| ==> Plain(lines[k])
  {
    IfStoreMissingIsPlain();
    ImportStoreIsPlain();
    InstallStoreIsPlain();
    InstallMockIsPlain();
    MockLinesArePlain();
    if disableAsyncLocalStorage then
      [BlockLine(indent, false, IfMockMissing), BlockLine(indent, true, InstallMock), BlockLine(indent, false, CloseBlock)]
    else
      [BlockLine(indent, false, IfStoreMissing), BlockLine(indent, true, ImportStore), BlockLine(indent, true, InstallStore),
       BlockLine(indent, false, ElseIfStoreMissing), BlockLine(indent, true, InstallMock), BlockLine(indent, false, CloseBlock)]
  }

  /** `block.join("\n") + "\n"`. */
  function BlockText(indent: string, disableAsyncLocalStorage: bool): string {
    Join(AsyncLocalStorageBlock(indent, disableAsyncLocalStorage), "\n") + "\n"
  }

  /** The block text has one line per block entry: 3 lines with the async store disabled,
      6 otherwise. */
  lemma BlockLineCount(indent: string, disableAsyncLocalStorage: bool)
    requires '\n' !in indent
    ensures CountChar(BlockText(indent, disableAsyncLocalStorage), '\n') == if disableAsyncLocalStorage then 3 else 6
  {
    var lines := AsyncLocalStorageBlock(indent, disableAsyncLocalStorage);
    JoinCount(lines, '\n');
    CountCharAppend(Join(lines, "\n"), "\n", '\n');
  }

  lemma {:induction false} JoinNoTab(lines: seq<string>, sep: string)
    requires '\t' !in sep
    requires forall k :: 0 <= k < |lines| ==> '\t' !in lines[k]
    ensures '\t' !in Join(lines, sep)
  {
    if |lines| > 1 {
      JoinNoTab(lines[1..], sep);
    }
  }

  /** The marker splice: throws when the marker is missing; otherwise the text before the
      marker's line and the text after its end are kept and the line becomes the block. */
  function ReplaceMarkerLine(code: string, disableAsyncLocalStorage: bool): (r: Result<string, string>)
    ensures r.Err? <==> !Contains(code, Marker)
    ensures r.Err? ==> r.error == MissingMarkerError
    ensures r.Ok? ==>
      var line := FindMarkerLine(code).value;
      r.value == code[..line.start] + BlockText(MarkerIndent(code, line), disableAsyncLocalStorage) + code[line.end..]
  {
    match FindMarkerLine(code)
    case None => Err(MissingMarkerError)
    case Some(line) =>
      Ok(code[..line.start] + BlockText(MarkerIndent(code, line), disableAsyncLocalStorage) + code[line.end..])
  }

  // ---------------------------------------------------------------------------------------
  // The compiled-bundles placeholder

  /** The declaration that replaces the placeholder. */
  function BundlesDeclaration(json: string): (d: string)
    ensures |d| == |json| + 25 && d[|d| - 1] == ';'
    ensures d[24..|d| - 1] == json
  {
    "const compiledBundles = " + json + ";"
  }

  /** The placeholder rewrite with the declaration inserted literally: the first placeholder
      becomes the declaration holding `json` exactly as given, and nothing else changes. */
  function SplitBundles(code: string, json: string): (r: string)
    ensures IndexOf(code, BundlesPlaceholder, 0).None? ==> r == code
    ensures IndexOf(code, BundlesPlaceholder, 0).Some? ==>
      var i := IndexOf(code, BundlesPlaceholder, 0).value;
      r == code[..i] + BundlesDeclaration(json) + code[i + |BundlesPlaceholder|..]
      && OccursAt(r, BundlesDeclaration(json), i)
  {
    var r := ReplaceFirst(code, BundlesPlaceholder, BundlesDeclaration(json));
    if IndexOf(code, BundlesPlaceholder, 0).Some? then
      var i := IndexOf(code, BundlesPlaceholder, 0).value;
      assert r[i..i + |BundlesDeclaration(json)|] == BundlesDeclaration(json);
      r
    else r
  }

  /** The placeholder rewrite as the source writes it: `String.prototype.replace` with a
      string replacement, which expands `$`-patterns in the stringified dictionary. */
  function SplitBundlesAsWritten(code: string, json: string): (r: string)
    ensures '$' !in json ==> r == SplitBundles(code, json)
  {
    ReplaceFirstExpanding(code, BundlesPlaceholder, BundlesDeclaration(json))
  }

  /** A stringified dictionary holding `$$` (a dollar sign right before a `${…}` in a
      template-literal message, for instance) loses one `$` in the code as written. */
  lemma DollarInBundlesIsCollapsed(code: string, pre: string, post: string)
    requires IndexOf(code, BundlesPlaceholder, 0).Some?
    requires '$' !in pre && '$' !in post
    ensures SplitBundlesAsWritten(code, pre + "$$" + post) != SplitBundles(code, pre + "$$" + post)
    ensures SplitBundlesAsWritten(code, pre + "$$" + post) == SplitBundles(code, pre + "$" + post)
  {
    var head := "const compiledBundles = " + pre;
    assert '$' !in head;
    assert '$' !in post + ";";
    assert BundlesDeclaration(pre + "$$" + post) == head + "$$" + (post + ";");
    assert BundlesDeclaration(pre + "$" + post) == head + "$" + (post + ";");
    DoubleDollarCollapses(code, BundlesPlaceholder, head, post + ";");
  }

  // ---------------------------------------------------------------------------------------
  // createServerFile

  /** The block carries no tab, so the final tab rewrite only touches the text around it. */
  lemma TabsAroundBlock(before: string, indent: string, disableAsyncLocalStorage: bool, after: string)
    requires Plain(indent)
    ensures ReplaceTabs(before + BlockText(indent, disableAsyncLocalStorage) + after)
         == ReplaceTabs(before) + BlockText(indent, disableAsyncLocalStorage) + ReplaceTabs(after)
  {
    var block := BlockText(indent, disableAsyncLocalStorage);
    JoinNoTab(AsyncLocalStorageBlock(indent, disableAsyncLocalStorage), "\n");
    ReplaceTabsNoTab(block);
    ReplaceTabsAppend(before, block);
    ReplaceTabsAppend(before + block, after);
  }

  /** `createServerFile`: throws exactly when the wrapped middleware has no marker; otherwise the
      result has no tab, and without locale splitting it is the text around the marker line
      (tabs rewritten) with the block in between; with splitting the placeholder is rewritten
      first. */
  function CreateServerFile(middleware: string, bundles: seq<CompiledBundle>, options: ServerFileOptions,
                            stringify: MessagesObject -> string, safeModuleId: string -> string): (r: Result<string, string>)
    ensures r.Err? <==> !Contains(ServerModuleCode(middleware), Marker)
    ensures r.Err? ==> r.error == MissingMarkerError
    ensures r.Ok? ==> '\t' !in r.value
    ensures r.Ok? && !options.experimentalMiddlewareLocaleSplitting ==>
      var code := ServerModuleCode(middleware);
      var line := FindMarkerLine(code).value;
      r.value == ReplaceTabs(code[..line.start]) + BlockText(MarkerIndent(code, line), options.disableAsyncLocalStorage)
                 + ReplaceTabs(code[line.end..])
    ensures r.Ok? && options.experimentalMiddlewareLocaleSplitting ==>
      var spliced := ReplaceMarkerLine(ServerModuleCode(middleware), options.disableAsyncLocalStorage).value;
      r.value == ReplaceTabs(SplitBundles(spliced, stringify(CompiledMessagesObject(bundles, safeModuleId))))
  {
    var code := ServerModuleCode(middleware);
    match ReplaceMarkerLine(code, options.disableAsyncLocalStorage)
    case Err(e) => Err(e)
    case Ok(spliced) =>
      if options.experimentalMiddlewareLocaleSplitting then
        Ok(ReplaceTabs(SplitBundles(spliced, stringify(CompiledMessagesObject(bundles, safeModuleId)))))
      else
        TabsAroundBlock(code[..FindMarkerLine(code).value.start], MarkerIndent(code, FindMarkerLine(code).value),
                        options.disableAsyncLocalStorage, code[FindMarkerLine(code).value.end..]);
        Ok(ReplaceTabs(spliced))
  }

  // ---------------------------------------------------------------------------------------
  // createCompiledMessagesObject

  function ExportPrefix(safeModuleId: string): string {
    "export const " + safeModuleId + " = "
  }

  /** `.replace(/;$/, "")`: one `;` at the very end is dropped. */
  function StripTrailingSemicolon(s: string): (r: string)
    ensures |s| > 0 && s[|s| - 1] == ';' ==> r + ";" == s
    ensures !(|s| > 0 && s[|s| - 1] == ';') ==> r == s
  {
    if |s| > 0 && s[|s| - 1] == ';' then s[..|s| - 1] else s
  }

  /** A message module's code reduced to its expression. */
  function MessageExpression(code: string, safeModuleId: string): (e: string)
    ensures |e| <= |code|
    ensures IndexOf(code, ExportPrefix(safeModuleId), 0).None? ==> e == StripTrailingSemicolon(code)
  {
    StripTrailingSemicolon(ReplaceFirst(code, ExportPrefix(safeModuleId), ""))
  }

  /** A message module `export const <id> = <expr>;` is reduced to exactly `<expr>`. */
  lemma MessageExpressionOfModule(safeModuleId: string, expr: string)
    ensures MessageExpression(ExportPrefix(safeModuleId) + expr + ";", safeModuleId) == expr
  {
    var p := ExportPrefix(safeModuleId);
    var code := p + expr + ";";
    assert OccursAt(code, p, 0);
    assert IndexOf(code, p, 0) == Some(0);
    assert code[|p|..] == expr + ";";
    assert ReplaceFirst(code, p, "") == expr + ";";
  }

  /** The inner loop: each message's expression is written under its locale, in order. */
  function WithMessages(entry: map<string, string>, messages: seq<CompiledMessage>, safeModuleId: string): (r: map<string, string>)
    ensures entry.Keys <= r.Keys
    ensures messages != [] ==> messages[|messages| - 1].locale in r
    decreases |messages|
  {
    if messages == [] then entry
    else
      var last := messages[|messages| - 1];
      WithMessages(entry, messages[..|messages| - 1], safeModuleId)[last.locale := MessageExpression(last.code, safeModuleId)]
  }

  /** The outer loop: each bundle's messages are merged into the entry of its id. */
  function CompiledMessagesObject(bundles: seq<CompiledBundle>, safeModuleId: string -> string): (r: MessagesObject)
    ensures forall i :: 0 <= i < |bundles| ==> bundles[i].id in r
    decreases |bundles|
  {
    if bundles == [] then map[]
    else
      var before := CompiledMessagesObject(bundles[..|bundles| - 1], safeModuleId);
      var b := bundles[|bundles| - 1];
      before[b.id := WithMessages(if b.id in before then before[b.id] else map[], b.messages, safeModuleId(b.id))]
  }

  /** The inner loop of `createCompiledMessagesObject`: one bundle's messages written, in
      order, into the entry of its id. */
  method AddMessages(result: MessagesObject, id: string, messages: seq<CompiledMessage>, safeModuleId: string)
    returns (updated: MessagesObject)
    requires id in result
    ensures updated == result[id := WithMessages(result[id], messages, safeModuleId)]
  {
    updated := result;
    for j := 0 to |messages|
      invariant updated == result[id := WithMessages(result[id], messages[..j], safeModuleId)]
    {
      assert messages[..j + 1][..j] == messages[..j];
      var m := messages[j];
      updated := updated[id := updated[id][m.locale := MessageExpression(m.code, safeModuleId)]];
    }
    assert messages[..|messages|] == messages;
  }

  /** `createCompiledMessagesObject`: the outer loop over the bundles, creating an empty entry
      for an id not seen before. */
  method CreateCompiledMessagesObject(bundles: seq<CompiledBundle>, safeModuleId: string -> string) returns (result: MessagesObject)
    ensures result == CompiledMessagesObject(bundles, safeModuleId)
  {
    result := map[];
    for i := 0 to |bundles|
      invariant result == CompiledMessagesObject(bundles[..i], safeModuleId)
    {
      var b := bundles[i];
      assert bundles[..i + 1][..i] == bundles[..i];
      if b.id !in result {
        result := result[b.id := map[]];
      }
      result := AddMessages(result, b.id, b.messages, safeModuleId(b.id));
    }
    assert bundles[..|bundles|] == bundles;
  }

  /** There is one key per distinct bundle id. */
  lemma {:induction false} CompiledMessagesKeys(bundles: seq<CompiledBundle>, safeModuleId: string -> string)
    ensures CompiledMessagesObject(bundles, safeModuleId).Keys == set i | 0 <= i < |bundles| :: bundles[i].id
    decreases |bundles|
  {
    if bundles != [] {
      var init := bundles[..|bundles| - 1];
      CompiledMessagesKeys(init, safeModuleId);
      assert forall i :: 0 <= i < |init| ==> init[i] == bundles[i];
      assert (set i | 0 <= i < |bundles| :: bundles[i].id)
          == (set i | 0 <= i < |init| :: init[i].id) + {bundles[|bundles| - 1].id};
    }
  }

  /** The inner loop merges into what is there: locales already present and not among the
      messages keep their expression. */
  lemma {:induction false} WithMessagesMerges(entry: map<string, string>, messages: seq<CompiledMessage>, safeModuleId: string)
    ensures WithMessages(entry, messages, safeModuleId) == entry + WithMessages(map[], messages, safeModuleId)
    decreases |messages|
  {
    if messages != [] {
      WithMessagesMerges(entry, messages[..|messages| - 1], safeModuleId);
    }
  }

  /** The entry written for one bundle's messages has one key per distinct locale. */
  lemma {:induction false} MessageEntryLocales(messages: seq<CompiledMessage>, safeModuleId: string, locale: string)
    ensures locale in WithMessages(map[], messages, safeModuleId)
        <==> exists j :: 0 <= j < |messages| && messages[j].locale == locale
    decreases |messages|
  {
    if messages != [] {
      var init := messages[..|messages| - 1];
      MessageEntryLocales(init, safeModuleId, locale);
      if exists j :: 0 <= j < |init| && init[j].locale == locale {
        var j :| 0 <= j < |init| && init[j].locale == locale;
        assert messages[j].locale == locale;
      }
      if exists j :: 0 <= j < |messages| && messages[j].locale == locale {
        var j :| 0 <= j < |messages| && messages[j].locale == locale;
        if j < |init| {
          assert init[j].locale == locale;
        }
      }
    }
  }

  /** A locale's entry holds the expression of the last message of that locale. */
  lemma {:induction false} LastMessageWins(messages: seq<CompiledMessage>, safeModuleId: string, j: nat)
    requires j < |messages|
    requires forall k :: j < k < |messages| ==> messages[k].locale != messages[j].locale
    ensures messages[j].locale in WithMessages(map[], messages, safeModuleId)
    ensures WithMessages(map[], messages, safeModuleId)[messages[j].locale] == MessageExpression(messages[j].code, safeModuleId)
    decreases |messages|
  {
    if j < |messages| - 1 {
      var init := messages[..|messages| - 1];
      assert init[j] == messages[j];
      assert messages[|messages| - 1].locale != messages[j].locale;
      LastMessageWins(init, safeModuleId, j);
    }
  }

  /** A later bundle with an id already seen adds or overwrites locales of that id's entry
      instead of replacing it, and leaves every other id's entry alone. */
  lemma LaterBundleMerges(bundles: seq<CompiledBundle>, b: CompiledBundle, safeModuleId: string -> string)
    ensures
      var before := CompiledMessagesObject(bundles, safeModuleId);
      var after := CompiledMessagesObject(bundles + [b], safeModuleId);
      b.id in after
      && after[b.id] == (if b.id in before then before[b.id] else map[]) + WithMessages(map[], b.messages, safeModuleId(b.id))
      && forall id :: id in before && id != b.id ==> id in after && after[id] == before[id]
  {
    assert (bundles + [b])[..|bundles|] == bundles;
    var before := CompiledMessagesObject(bundles, safeModuleId);
    WithMessagesMerges(if b.id in before then before[b.id] else map[], b.messages, safeModuleId(b.id));
  }

  /** The names every plain JavaScript object inherits from `Object.prototype`. */
  const ObjectPrototypeProperties: set<string> := {
    "constructor", "__proto__", "toString", "toLocaleString", "valueOf", "hasOwnProperty",
    "isPrototypeOf", "propertyIsEnumerable", "__defineGetter__", "__defineSetter__",
    "__lookupGetter__", "__lookupSetter__"
  }

  /** The dictionary as the source builds it in a plain `{}`: its own entries, and the
      locale names a bundle with id "__proto__" has written, as strings, onto
      `Object.prototype` (which is what `result["__proto__"]` is). */
  datatype AsWrittenState = AsWrittenState(own: MessagesObject, polluted: set<string>)

  /** The locale names a bundle's messages write onto an object; a "__proto__" locale is not
      one of them, because that setter ignores a string. */
  function WrittenLocales(messages: seq<CompiledMessage>): (r: set<string>)
    ensures "__proto__" !in r
    decreases |messages|
  {
    if messages == [] then {}
    else
      var last := messages[|messages| - 1];
      WrittenLocales(messages[..|messages| - 1]) + (if last.locale == "__proto__" then {} else {last.locale})
  }

  /** The outer loop as written, `None` where it throws. `result[bundleId]` finds an own entry
      first, then an inherited value: a string written onto `Object.prototype` (whose property
      write at line 84 throws a TypeError in module code) or an `Object.prototype` member (the
      messages go onto that member, not into the dictionary). Only a name with neither gets
      a new entry. */
  function AsWrittenRun(bundles: seq<CompiledBundle>, safeModuleId: string -> string): (r: Option<AsWrittenState>)
    ensures r.Some? ==> forall id :: id in r.value.own ==> id !in ObjectPrototypeProperties
    ensures r.Some? ==> "__proto__" !in r.value.polluted
    decreases |bundles|
  {
    if bundles == [] then Some(AsWrittenState(map[], {}))
    else match AsWrittenRun(bundles[..|bundles| - 1], safeModuleId)
      case None => None
      case Some(st) =>
        var b := bundles[|bundles| - 1];
        if b.id in st.own then
          Some(st.(own := st.own[b.id := WithMessages(st.own[b.id], b.messages, safeModuleId(b.id))]))
        else if b.id == "__proto__" then Some(st.(polluted := st.polluted + WrittenLocales(b.messages)))
        else if b.id in st.polluted then (if b.messages == [] then Some(st) else None)
        else if b.id in ObjectPrototypeProperties then Some(st)
        else Some(st.(own := st.own[b.id := WithMessages(map[], b.messages, safeModuleId(b.id))]))
  }

  /** The dictionary `createCompiledMessagesObject` returns as written, `None` where it throws. */
  function CompiledMessagesObjectAsWritten(bundles: seq<CompiledBundle>, safeModuleId: string -> string): (r: Option<MessagesObject>)
    ensures r.Some? ==> forall id :: id in r.value ==> id !in ObjectPrototypeProperties
  {
    match AsWrittenRun(bundles, safeModuleId)
    case Some(st) => Some(st.own)
    case None => None
  }

  /** The entries of a dictionary whose id is not an inherited property name. */
  function OwnNamed(m: MessagesObject): MessagesObject {
    map id | id in m && id !in ObjectPrototypeProperties :: m[id]
  }

  /** Writing an inherited name does not change the entries kept; writing another name
      writes it there. */
  lemma OwnNamedUpdate(m: MessagesObject, id: string, entry: map<string, string>)
    ensures id in ObjectPrototypeProperties ==> OwnNamed(m[id := entry]) == OwnNamed(m)
    ensures id !in ObjectPrototypeProperties ==> OwnNamed(m[id := entry]) == OwnNamed(m)[id := entry]
  {
  }

  /** A dictionary without inherited names keeps all its entries. */
  lemma OwnNamedKeepsAll(m: MessagesObject)
    requires forall id :: id in m ==> id !in ObjectPrototypeProperties
    ensures OwnNamed(m) == m
  {
  }

  /** As written, with no bundle named "__proto__", nothing is written onto `Object.prototype`
      and the dictionary loses exactly the bundles whose id is an inherited property name (a
      message called `constructor`, say); all others come out as intended. */
  lemma {:induction false} AsWrittenLosesPrototypeNamedBundles(bundles: seq<CompiledBundle>, safeModuleId: string -> string)
    requires forall i :: 0 <= i < |bundles| ==> bundles[i].id != "__proto__"
    ensures AsWrittenRun(bundles, safeModuleId) == Some(AsWrittenState(OwnNamed(CompiledMessagesObject(bundles, safeModuleId)), {}))
    decreases |bundles|
  {
    if bundles != [] {
      var init := bundles[..|bundles| - 1];
      var b := bundles[|bundles| - 1];
      assert forall i :: 0 <= i < |init| ==> init[i] == bundles[i];
      AsWrittenLosesPrototypeNamedBundles(init, safeModuleId);
      var before := CompiledMessagesObject(init, safeModuleId);
      var entry := WithMessages(if b.id in before then before[b.id] else map[], b.messages, safeModuleId(b.id));
      assert CompiledMessagesObject(bundles, safeModuleId) == before[b.id := entry];
      OwnNamedUpdate(before, b.id, entry);
      assert b.id in OwnNamed(before) <==> b.id in before && b.id !in ObjectPrototypeProperties;
    }
  }

  /** No bundle id names an `Object.prototype` property. */
  predicate NoInheritedIds(bundles: seq<CompiledBundle>) {
    forall i :: 0 <= i < |bundles| ==> bundles[i].id !in ObjectPrototypeProperties
  }

  /** With no bundle id naming an `Object.prototype` property, the source's dictionary is the
      intended one and nothing throws. */
  lemma AsWrittenAgreesWithoutPrototypeNames(bundles: seq<CompiledBundle>, safeModuleId: string -> string)
    requires NoInheritedIds(bundles)
    ensures CompiledMessagesObjectAsWritten(bundles, safeModuleId) == Some(CompiledMessagesObject(bundles, safeModuleId))
  {
    var intended := CompiledMessagesObject(bundles, safeModuleId);
    assert "__proto__" in ObjectPrototypeProperties;
    AsWrittenLosesPrototypeNamedBundles(bundles, safeModuleId);
    CompiledMessagesKeys(bundles, safeModuleId);
    forall id | id in intended
      ensures id !in ObjectPrototypeProperties
    {
      var i :| 0 <= i < |bundles| && bundles[i].id == id;
    }
    OwnNamedKeepsAll(intended);
  }

  /** When, in addition, the stringified dictionary holds no `$`, the source's placeholder
      rewrite is the literal splice of the intended dictionary. */
  lemma SplittingAgreesWithSource(code: string, bundles: seq<CompiledBundle>, stringify: MessagesObject -> string,
                                  safeModuleId: string -> string)
    requires NoInheritedIds(bundles)
    requires '$' !in stringify(CompiledMessagesObject(bundles, safeModuleId))
    ensures CompiledMessagesObjectAsWritten(bundles, safeModuleId).Some?
    ensures SplitBundlesAsWritten(code, stringify(CompiledMessagesObjectAsWritten(bundles, safeModuleId).value))
         == SplitBundles(code, stringify(CompiledMessagesObject(bundles, safeModuleId)))
  {
    AsWrittenAgreesWithoutPrototypeNames(bundles, safeModuleId);
  }

  /** A concrete case: a bundle named "__proto__" with an "en" message puts "en" onto
      `Object.prototype`, so a later bundle named "en" finds a string there and writing its
      "de" message throws; as intended, both bundles are in the dictionary. */
  lemma ProtoBundlePollutes(first: string, second: string, safeModuleId: string -> string)
    ensures CompiledMessagesObjectAsWritten([CompiledBundle("__proto__", [CompiledMessage("en", first)]),
                                             CompiledBundle("en", [CompiledMessage("de", second)])], safeModuleId).None?
    ensures CompiledMessagesObject([CompiledBundle("__proto__", [CompiledMessage("en", first)]),
                                    CompiledBundle("en", [CompiledMessage("de", second)])], safeModuleId).Keys == {"__proto__", "en"}
  {
    var proto := CompiledBundle("__proto__", [CompiledMessage("en", first)]);
    var en := CompiledBundle("en", [CompiledMessage("de", second)]);
    assert [proto, en][..1] == [proto];
    assert [proto][..0] == [];
    assert proto.messages[..0] == [];
    assert WrittenLocales(proto.messages) == {"en"};
    assert AsWrittenRun([], safeModuleId) == Some(AsWrittenState(map[], {}));
    var st0 := AsWrittenState(map[], {});
    assert "__proto__" !in st0.own;
    assert [proto][|[proto]| - 1] == proto;
    assert AsWrittenRun([proto], safeModuleId) == Some(st0.(polluted := st0.polluted + WrittenLocales(proto.messages)));
    assert AsWrittenRun([proto], safeModuleId) == Some(AsWrittenState(map[], {"en"}));
    assert AsWrittenRun([proto, en], safeModuleId).None?;
    assert CompiledMessagesObject([proto], safeModuleId).Keys == {"__proto__"};
    assert CompiledMessagesObject([proto, en], safeModuleId).Keys == {"__proto__", "en"};
  }

  /** A concrete case: one bundle named `constructor` yields an empty dictionary as written,
      while the intended dictionary has its entry. */
  lemma ConstructorBundleIsLost(messages: seq<CompiledMessage>, safeModuleId: string -> string)
    ensures CompiledMessagesObjectAsWritten([CompiledBundle("constructor", messages)], safeModuleId) == Some(map[])
    ensures "constructor" in CompiledMessagesObject([CompiledBundle("constructor", messages)], safeModuleId)
  {
    var bs := [CompiledBundle("constructor", messages)];
    assert bs[..0] == [];
    assert AsWrittenRun([], safeModuleId) == Some(AsWrittenState(map[], {}));
    assert "constructor" in ObjectPrototypeProperties;
    assert AsWrittenRun(bs, safeModuleId) == Some(AsWrittenState(map[], {}));
  }
}
