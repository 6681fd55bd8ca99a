# UI-Designer core, modelled in Dafny

UI-Designer is a drag-and-drop UI builder. Components sit on a canvas, are kept in a Zustand
store, and are exported as JSX or HTML. An AI assistant can rewrite the canvas or generate a
new component. An API route re-indents HTML. This project models the core of that program
and proves what each part promises:

- `Store` (store.dfy): the component store. It is a class with the three fields the store updates.
  - Each method is tied to a pure step function on `StoreState`.
  - Lemmas about these step functions cover the single-snapshot undo, the selection, and id uniqueness.
- `ComponentTypes` (component.dfy): the component record. It holds the closed set of seven
  component kinds, and the `{...comp, ...updatedProps}` merge the store applies.
- `JsValue` (json.dfy): JSON values, with objects as ordered key lists. It models the JavaScript
  operations the code performs on them: property lookup, assignment, spread, truthiness, `||`
  and `String()`.
- `Strings` (strings.dfy): the JavaScript string operations used. These are `split` on one
  character, `join`, `trim` over the ECMAScript whitespace set, `indexOf`, and `toLowerCase`.
- `FormatHtml` (format_html.dfy): the `formatHTML` indenter and the `POST` handler of the
  format-html route.
  - The indenter is a method with a loop. It is proved equal to a recursive layout function.
  - The model characterises exactly when the indenter throws: when the running indent would go negative.
- `AIAssistant` (ai_assistant.dfy): JSON extraction from a model reply, the normalisation of the
  analysed canvas, and the safeguards of the generated component.
- `Header` (header.dfy): the JSX and HTML exports and the format switch.
- `Preview` (preview.dfy): the preview page's JSX export.
- `Sidebar` (sidebar.dfy): the layers panel's grouping by template id and the store calls its
  buttons make.

Some parts of the program are passed in as function parameters and are never defined here:

- `JSON.parse`: a parse function that returns `None` when parsing throws.
- The two regular-expression matches of `extractValidJSON`.
- `JSON.stringify`, in the JSX export of non-string props.
- The id generator `uuidv4`: an id string, or a function from element index to id.

The layers panel (src/components/Sidebar.tsx:6-17) destructures `undo`, `redo`,
`duplicateComponent`, `toggleVisibility` and `deleteTemplate` from the store. The store
(src/store/componentStore.ts:17-65) defines none of them. Its only history is one snapshot,
`previousComponents`. `undoChanges` restores it only when it is non-empty, and clears it either
way. `Sidebar.WiredButtons` shows that the buttons wired to those missing members reach no store
operation.

## Model

| member | source | states |
|---|---|---|
| Store.ComponentStore.constructor | src/store/componentStore.ts:17-20 | the store starts with no components, no selection and an empty snapshot |
| Store.ComponentStore.AddComponent | src/store/componentStore.ts:22-30 | appends the component under the freshly drawn id, discarding any id it carried; selects that id; snapshots the old list |
| Store.ComponentStore.UpdateComponent | src/store/componentStore.ts:32-36 | every component with the id is merged with the patch and all others are kept; selection unchanged; old list snapshotted |
| Store.ComponentStore.DeleteComponent | src/store/componentStore.ts:38-43 | drops every component with the id; clears the selection exactly when it was that id; snapshots the old list |
| Store.ComponentStore.SelectComponent | src/store/componentStore.ts:45 | sets the selection to the id, whether or not a component has it; list and snapshot unchanged |
| Store.ComponentStore.SetComponents | src/store/componentStore.ts:47-51 | replaces the list, snapshots the old one, keeps the selection |
| Store.ComponentStore.UndoChanges | src/store/componentStore.ts:53-57 | restores a non-empty snapshot (an empty one leaves the list as it is), then empties the snapshot; selection unchanged |
| Store.ComponentStore.DeleteAllComponents | src/store/componentStore.ts:59-64 | empties the list and the selection, snapshots the old list |
| Store.AddAppendsOne | src/store/componentStore.ts:22-30 | adding grows the list by one, keeps the old components as a prefix, and puts the new record last, under the fresh id |
| Store.CallerIdIsDiscarded | src/store/componentStore.ts:24 | selecting the id the caller put on the added component finds no component, since the store overwrote it |
| Store.UpdateListPointwise | src/store/componentStore.ts:35 | the update keeps the length; an element becomes its merge with the patch exactly when its id matches |
| Store.StaleUpdateKeepsList | src/store/componentStore.ts:32-36 | updating an id no component has leaves the list as it is but still overwrites the snapshot |
| Store.PropsPatchReplacesProps | src/store/componentStore.ts:35 | a patch carrying `props` replaces the props object wholesale: a prop it omits is gone |
| Store.RemoveIdConcat | src/store/componentStore.ts:41 | the filter keeps order: removing from a concatenation removes from each part in place |
| Store.RemoveIdSpec | src/store/componentStore.ts:41 | after the filter the id is absent, the other ids remain, the length drops by the number of matches, and an absent id changes nothing |
| Store.DeleteRemovesOne | src/store/componentStore.ts:41 | with unique ids, deleting a present id removes exactly one component |
| Store.DeleteClearsSelection | src/store/componentStore.ts:42 | after a delete there is no selection exactly when there was none or it was the deleted id |
| Store.SelectOnlySelects | src/store/componentStore.ts:45 | selecting changes neither the list nor the snapshot |
| Store.SetMayLeaveSelectionDangling | src/store/componentStore.ts:47-51 | replacing the list can leave the selection naming an id that is no longer on the canvas |
| Store.UndoTwiceIsUndoOnce | src/store/componentStore.ts:53-57 | undo is idempotent and always leaves an empty snapshot |
| Store.UndoAfterChange | src/store/componentStore.ts:53-57 | undo right after any snapshotting change restores the list before it, unless that list was empty |
| Store.FirstAddCannotBeUndone | src/store/componentStore.ts:22-57 | undo after the first add keeps the added component, because the snapshot taken was empty |
| Store.UndoAddKeepsSelection | src/store/componentStore.ts:28-57 | undoing an add restores the old list but still selects the removed component's id |
| Store.UndoDeleteLosesSelection | src/store/componentStore.ts:42-57 | undoing the delete of the selected component restores it but not its selection |
| Store.DeleteAllEmpties | src/store/componentStore.ts:59-64 | delete-all empties list and selection and can be undone when the list was non-empty |
| Store.AddKeepsIdsUnique | src/store/componentStore.ts:24-27 | adding under an id not in use keeps the ids unique |
| Store.DeleteKeepsIdsUnique | src/store/componentStore.ts:41 | deleting keeps the ids unique |
| Store.UpdateKeepsIdsUnique | src/store/componentStore.ts:35 | an update whose patch does not change the id keeps the ids unique |
| ComponentTypes.ParseType | src/types/component.ts:1-8 | a string names a component kind exactly when it is one of the seven literals, and the kind's name gives it back |
| ComponentTypes.TypeNameRoundTrip | src/types/component.ts:1-8 | every kind's name parses back to that kind |
| ComponentTypes.Merge | src/store/componentStore.ts:35 | each field the patch supplies wins, the others are kept; the extra keys keep the component's order, with the patch's new keys after them in the patch's order |
| JsValue.Lookup | src/components/AIAssistant.tsx:146-147 | a key has a value exactly when it is among the object's keys |
| JsValue.LookupIndex | src/app/dashboard/preview/page.tsx:115 | a key that has a value occurs as an entry of the object |
| JsValue.Assign | src/components/AIAssistant.tsx:148-157 | `{...o, k: v}` maps `k` to `v` and every other key as before |
| JsValue.AssignKeys | src/components/AIAssistant.tsx:148-157 | assignment keeps the key order, appends a new key last, and keeps keys unique |
| JsValue.Spread | src/store/componentStore.ts:35 | `{...a, ...b}` takes each key from `b` when present and from `a` otherwise, and keeps keys unique |
| JsValue.SpreadKeys | src/store/componentStore.ts:35 | the keys of `{...a, ...b}` are the keys of `a` in their order, then the keys only `b` has, in `b`'s order |
| JsValue.Without | src/app/dashboard/preview/page.tsx:116 | the filter drops exactly the listed keys and keeps every other entry |
| JsValue.OrElse | src/components/AIAssistant.tsx:146-147 | the or-operator gives `a` when `a` is truthy and `b` otherwise; the result is truthy exactly when `a` or `b` is |
| Strings.SplitJoin | src/app/api/format-html/route.ts:57 | splitting at a character loses nothing: joining the pieces with it gives the input, and no piece holds it |
| Strings.JoinSplit | src/components/Header.tsx:30 | joining pieces that do not hold the separator and splitting again gives the pieces back |
| Strings.JoinContains | src/components/Header.tsx:30 | every joined part occurs in the join, and the first part starts it |
| Strings.TrimStartSpec | src/app/api/format-html/route.ts:87 | the leading whitespace removed is all whitespace and the rest does not start with whitespace |
| Strings.TrimEndSpec | src/app/api/format-html/route.ts:87 | the trailing whitespace removed is all whitespace and the rest does not end with whitespace |
| Strings.TrimSpec | src/app/api/format-html/route.ts:87 | `trim` keeps a slice of the input with only whitespace around it and no whitespace at either end |
| Strings.ToLower | src/components/Header.tsx:106 | `toLowerCase` keeps the length and lowers every ASCII capital, character by character |
| FormatHtml.LayoutStep | src/app/api/format-html/route.ts:63-84 | a definitional unfolding of one loop step, used as a proof helper: a closing piece dedents first, a negative indent throws, otherwise the piece is written on a new indented line and an opening piece indents what follows. What the whole loop does is stated by `LayoutSucceedsIff` and `FormattedStartsWithLt` |
| FormatHtml.FormatHTML | src/app/api/format-html/route.ts:52-88 | the loop over the split pieces computes the trimmed layout, or the error `repeat` throws |
| FormatHtml.LayoutSucceedsIff | src/app/api/format-html/route.ts:66-71 | the layout succeeds exactly when no prefix of the pieces closes more levels than were opened before it |
| FormatHtml.FormatFailsIff | src/app/api/format-html/route.ts:57-71 | `formatHTML` throws exactly when some closing tag has no open level above it |
| FormatHtml.FormattedStartsWithLt | src/app/api/format-html/route.ts:63-87 | a non-empty formatted result starts with `<` |
| FormatHtml.TextGainsLt | src/app/api/format-html/route.ts:57-87 | non-empty text with no `<` that does not start with `/` is one piece: it formats as `<` plus the text, trimmed at the end |
| FormatHtml.LeadingSlashThrows | src/app/api/format-html/route.ts:57-71 | any input starting with `/`, such as the path `/home/x`, reads as a closing tag with nothing open, so the indent goes to -1 and the formatter throws |
| FormatHtml.StrayCloseThrows | src/app/api/format-html/route.ts:66-71 | `"</p>"` throws, since its indent goes to -1 |
| FormatHtml.Post | src/app/api/format-html/route.ts:3-49 | a body that is not JSON gives 400; a `null` body gives 500; a falsy `rawHtml` gives 400; otherwise the formatted string is returned, or the raw value when it is not a string or formatting throws |
| AIAssistant.ExtractValidJson | src/components/AIAssistant.tsx:20-43 | the whole text parsed, or else the brace match parsed, or else the fenced block parsed, or else `null`, in that order |
| AIAssistant.ExtractIsSound | src/components/AIAssistant.tsx:20-43 | the result is `null` or the parse of the text, of the brace match, or of the fence match |
| AIAssistant.NormalizeAnalyzed | src/components/AIAssistant.tsx:144-158 | normalising an element fails exactly when it is `null` |
| AIAssistant.NormalizeAnalyzedSpec | src/components/AIAssistant.tsx:144-158 | a truthy id and type are kept (else a fresh id and `div`); `left`/`top` default to `0px` with other style keys kept; children are a string (else `Component`); other props are kept |
| AIAssistant.NormalizeAll | src/components/AIAssistant.tsx:144-158 | the map succeeds exactly when no element is `null`, and then gives one component per element |
| AIAssistant.AnalyzedRejects | src/components/AIAssistant.tsx:136-168 | a blank reply is ignored; a reply that is not an array, or holds a `null`, reports the format error; neither touches the store |
| AIAssistant.AnalyzedApplies | src/components/AIAssistant.tsx:140-164 | an array reply replaces the canvas with its normalised elements in order, snapshots the old list and selects the first element if any |
| AIAssistant.GeneratedPropsSpec | src/components/AIAssistant.tsx:275-287 | `left`/`top` default to `100px` and `width` to `200px` when falsy, other style keys are kept, children stay a string or fall back to the name, other props are kept |
| AIAssistant.GenerateComponent | src/components/AIAssistant.tsx:172-320 | a blank name is refused, and only a blank name is. A failed request is reported as failed and yields the fallback record under the second fresh id. Otherwise the request counts as a success: a reply with no truthy JSON yields the default record, and a truthy one yields the record built from it |
| AIAssistant.GeneratedRecordShape | src/components/AIAssistant.tsx:248-317 | whichever path produced it, the generated record has string children and `left`, `top` and `width` set |
| AIAssistant.DefaultShape | src/components/AIAssistant.tsx:248-265 | the default record is titled with the name and placed at 100px, 100px, 200px wide |
| AIAssistant.FallbackShape | src/components/AIAssistant.tsx:298-314 | the fallback record is titled with the name (or `New Component`) and placed at 100px, 100px, 200px wide |
| AIAssistant.FailedRequestUsesName | src/components/AIAssistant.tsx:293-317 | a failed request shows a record with the second fresh id and the entered name |
| AIAssistant.GeneratedRecordsAreNotWellTyped | src/components/AIAssistant.tsx:248-317 | the default and fallback records have type `div`, which is not a component kind, and no `className`, so their props are not the declared props type either |
| AIAssistant.ApplyGeneratedAppends | src/components/AIAssistant.tsx:323-349 | applying appends the record after every existing one under its own id (or a fresh one), with its type or `div`, the safeguarded props and its other keys; selects it and snapshots the old list |
| AIAssistant.AppliedRecordShape | src/components/AIAssistant.tsx:328-348 | the record put on the canvas has `left`/`top` defaulted to `100px` and `width` to `200px` when falsy, other style keys kept, and string children |
| AIAssistant.ApplyNothingIsNoOp | src/components/AIAssistant.tsx:324 | with nothing generated, applying changes nothing |
| Header.PropAttrCases | src/components/Header.tsx:21-25 | a bare key is exactly `true`, a quote after `=` is exactly a string, a brace after `=` is exactly every other value |
| Header.JsxCode | src/components/Header.tsx:16 | an empty canvas gives the placeholder comment |
| Header.JsxOneLinePerComponent | src/components/Header.tsx:18-30 | when no rendered line holds a newline, splitting the JSX at newlines gives back the component lines in order |
| Header.JsxLineHasEveryProp | src/components/Header.tsx:20-28 | a component's line opens with its type and carries the attribute of every prop |
| Header.JsxHasEveryComponent | src/components/Header.tsx:18-30 | every component's line occurs in the JSX and the first one starts it |
| Header.Kebab | src/components/Header.tsx:107 | the converted style key holds no ASCII capital |
| Header.KebabRoundTrip | src/components/Header.tsx:107 | for a key without hyphens, reading `-x` back as a capital gives the key again |
| Header.KebabInjective | src/components/Header.tsx:107 | distinct hyphen-free keys become distinct CSS property names |
| Header.KebabCollision | src/components/Header.tsx:107 | `aB` and `a-b` become the same CSS property name |
| Header.HtmlCode | src/components/Header.tsx:87 | an empty canvas gives the placeholder comment |
| Header.HtmlHasEveryComponent | src/components/Header.tsx:89-115 | a non-empty canvas gives a document that starts with the fixed head and contains every component's block |
| Header.HtmlBlockHasEveryStyle | src/components/Header.tsx:106-108 | every style entry is declared in the block, under a name with no capitals |
| Header.HtmlClassIsLowercased | src/components/Header.tsx:106 | the block's class is the type lowered letter by letter |
| Header.ActiveCode | src/components/Header.tsx:122-133 | a definitional dispatch: `jsx`, `html` and `json` select their generator, and any other format gives the empty string. What the generators produce is stated by the `JsxCode` and `HtmlCode` lemmas |
| Preview.RemoveHyphens | src/app/dashboard/preview/page.tsx:104 | the result holds no hyphen |
| Preview.RemoveHyphensConcat | src/app/dashboard/preview/page.tsx:104 | the removal keeps the order: a concatenation is treated piece by piece |
| Preview.RemoveHyphensChar | src/app/dashboard/preview/page.tsx:104 | one character: a hyphen is dropped, any other character is kept |
| Preview.RemoveHyphensCounts | src/app/dashboard/preview/page.tsx:104 | every character other than a hyphen is kept as often as it occurs |
| Preview.RemoveHyphensKeepsOnly | src/app/dashboard/preview/page.tsx:104 | nothing is added: every character of the result is in the id |
| Preview.DropHyphen | src/app/dashboard/preview/page.tsx:104 | a hyphen between any two pieces is dropped |
| Preview.HyphenFreeIdKept | src/app/dashboard/preview/page.tsx:104 | an id without hyphens is used as it is |
| Preview.HyphenCollision | src/app/dashboard/preview/page.tsx:104-131 | for any `x` and `y`, the distinct ids `x-y` and `xy` give the same component name |
| Preview.GeneratedHasEveryComponent | src/app/dashboard/preview/page.tsx:87-137 | the output starts with the imports, holds every component's definition and holds every component's tag |
| Preview.LayoutOneTagPerLine | src/app/dashboard/preview/page.tsx:127-135 | for ids without newlines, the layout's lines are the fixed opening lines, then one indented line per component holding its tag in list order, then the fixed closing lines |
| Preview.TagsIndented | src/app/dashboard/preview/page.tsx:131 | the tags joined by a newline and indent, after the template's indent, are the indented tag lines |
| Preview.GeneratedForEmpty | src/app/dashboard/preview/page.tsx:88-137 | an empty canvas gives the imports and an empty layout |
| Preview.ElementHasEveryOtherProp | src/app/dashboard/preview/page.tsx:115-118 | every prop other than `style`, `className` and `content` is an attribute of a non-text element, and those three never are |
| Preview.TextIgnoresChildren | src/app/dashboard/preview/page.tsx:113-114 | a text component shows `content`: changing its children leaves its definition unchanged |
| Sidebar.GroupByTemplate | src/components/Sidebar.tsx:20-25 | the reduce creates each group on first sight, in that order, and each group holds its components in list order |
| Sidebar.GroupOrderSpec | src/components/Sidebar.tsx:20-25 | a group is listed exactly when some component carries its name, and never twice |
| Sidebar.MembersSpec | src/components/Sidebar.tsx:21-23 | a group holds exactly the components carrying its name |
| Sidebar.ExactlyOneGroup | src/components/Sidebar.tsx:20-25 | every component lands in exactly one group, the one named by its template id |
| Sidebar.GroupSizesSum | src/components/Sidebar.tsx:20-25 | the group sizes add up to the number of components |
| Sidebar.NoGroupsIffEmpty | src/components/Sidebar.tsx:33-34 | the "No components added yet" message shows exactly for an empty canvas |
| Sidebar.AllUngrouped | src/components/Sidebar.tsx:21 | components without a template id all fall into the single `Ungrouped` group |
| Sidebar.Perform | src/components/Sidebar.tsx:6-17 | of the members the panel destructures, only delete-all, select and delete exist in the store |
| Sidebar.WiredButtons | src/components/Sidebar.tsx:45-120 | only trashing `Ungrouped`, clicking a row and deleting a row reach a store operation; trashing `Ungrouped` empties the canvas; "Move up" calls `undo` and "Move down" calls `redo` |

## Left out

- Numbers: JSON numbers are modelled as integers. Floating point and `String()` of non-integers are not modelled.
- `AIAssistant.NormalizeAnalyzed` and `AIAssistant.SafeFromExtracted`: a truthy id or type that is not a string is kept in its `String()` form. The program keeps the value itself. So a numeric id `5` and the string `"5"` are one id in the model, while the store's `===` would tell them apart.
- `JsValue.FieldsOf` and `ComponentTypes.StyleOf`: spreads of strings and arrays are not modelled. Any non-object counts as `{}`. So a string `style` has no entries here, while `Object.entries` and a spread would list its characters by index.
- Property order: `Object.keys` and `Object.entries` list integer-like keys first. The model keeps insertion order for every key.
- `Sidebar.GroupByTemplate`: a template id such as `constructor` or `toString` names an inherited property of the `{}` accumulator. There the reduce would push onto a function and throw. The model treats every name as a fresh key.
- Case and whitespace: `toLowerCase` and the `/[A-Z]/` replacement are modelled on ASCII letters only.
- Characters: JavaScript strings are sequences of UTF-16 code units. Dafny strings are sequences of characters.
- Parsing and serialising are parameters: `JSON.parse`, `JSON.stringify` (and the indented text of the JSON export, passed to `Header.ActiveCode` as `jsonCode`), and the two regular-expression matches of `extractValidJSON`. Their internals are not modelled.
- `uuidv4` is a parameter: the model is given the fresh ids. Uniqueness of fresh ids is the caller's assumption (`Store.AddKeepsIdsUnique` requires it).
- AI calls: the Gemini requests, prompts and replies are not modelled; the reply text is an input. React state (`generatedText`, `generatedComponent`, the error and loading flags, `prevComponents`) is not modelled either. Only the outcome of each handler is.
- `AIAssistant.ApplyGenerated`: the record is a `Component` whose id and type are already strings. The `||` fallbacks are therefore modelled for the empty string only.
- `FormatHtml.Post`: the `NextResponse` object, headers and the `details` field of the 500 reply are not modelled. Only the status and the body's main field are.
- Other routes, pages and components are not part of this model. Examples are canvas drag and drop, the property panel, sharing, projects and templates.
- `undo`, `redo`, `duplicateComponent`, `toggleVisibility` and `deleteTemplate`: the layers panel calls them, but the store defines none of them, so they have no behaviour to model. `Sidebar.Perform` gives `None` for them.
