# Sketch-to-HTML core, modelled in Dafny

The application turns a hand-drawn website sketch into an HTML page with a
generative model, lets the user refine the page or edit one selected element,
and shows the result in a live preview frame. This project models the
deterministic logic around the model calls and proves properties of it:

- **Canvas change detection** (`canvas.dfy`, module `CanvasChanges`).
  `detectCanvasChanges` compares two TLDraw snapshots. It reports additions,
  removals and modifications of shapes keyed by id, in three list passes that
  push into one result list, and a failure while decoding gives the empty list.
  The passes are modelled as loops that append records. Each loop is proved
  equal to a pure specification (`Changes`), and membership, order, the text
  change that takes priority over a geometry change, and the empty result for
  identical snapshots are proved about that specification.
- **Element inspector** (`inspector.dfy`, module `ElementInspector`). This is
  the script that runs inside the preview frame. It is modelled as a class
  `Inspector` that holds:
  - the active flag, the selected element and the body cursor;
  - whether the capture listeners are attached;
  - a `HighlightBox` object whose style fields the handlers update in place;
  - an outbox of messages posted to the parent window.

  There is one method per listener and per helper that changes the page:
  `toggleInspector`, `hideHighlight`, `updateHighlight`, the mouse-move and
  click listeners, and the message listener, which handles `DESELECT_ELEMENT`
  itself. The four listener methods (`ToggleInspector`, `MouseMove`, `Click`
  and `Receive`) keep an invariant (`Valid`) and state the whole new state.
  The two box helpers, `HideHighlight` and `UpdateHighlight`, state only the
  box's new fields. The selector and the reported-text helpers are pure
  functions.
- **Live preview frame** (`preview.dfy`, module `PreviewFrame`).
  `getLivePreviewFrame` changes the code in three steps:
  - it names an anonymous default export `App`;
  - it drops the first `export default`;
  - it comments out `import` lines.

  It then splices the code into a fixed HTML page.
- **API routes** (`route_text.dfy`, `generate.dfy`, `refine.dfy`,
  `edit_element.dfy`). These cover:
  - request-field checks, which answer 400;
  - the `data:<mime>;base64,` prefix of an uploaded image, the data URL syntax
    of RFC 2397;
  - the `contents` list sent to the model and the prompt templates;
  - the clean-up of markdown code fences in the model's answer: the first
    fenced block for generate and refine, a global removal for edit-element;
  - the edit-element HTML check and the 500 replies of the `catch` blocks.

  Each route is a pair of functions. The request function gives the contents
  sent to the model, or none when the route answers without calling it. The
  response function gives the reply, given the model's answer.

Shared pieces:
- `strings.dfy`: JavaScript `trim`, `toLowerCase`, `indexOf`, `split`/`join`
  and integer printing.
- `templates.dfy`: template literals.
- `wrappers.dfy`: `Option`.

## Model

| member | source | states |
|---|---|---|
| CanvasChanges.DetectCanvasChanges | src/lib/canvasUtils.ts:32-117 | The returned list is `DetectChanges`: the three passes' records on the decoded shapes, or empty when a payload is missing or fails to decode. |
| CanvasChanges.ListChanges | src/lib/canvasUtils.ts:52-110 | The three passes run in sequence give the additions, then the removals, then the modifications (`Changes`). |
| CanvasChanges.Changes | src/lib/canvasUtils.ts:52-110 | The specification of the change list. Its behaviour is stated by GroupsInOrder, AdditionsAreNewShapes, RemovalsAreDeletedShapes, ModificationCases and IdenticalSnapshotsNoChanges. |
| CanvasChanges.PushAdditions | src/lib/canvasUtils.ts:52-63 | The loop appends the addition record of every current shape whose id the previous ids lack, in list order. |
| CanvasChanges.PushRemovals | src/lib/canvasUtils.ts:66-74 | The loop appends the removal record of every previous shape whose id the current ids lack, in list order. |
| CanvasChanges.PushModifications | src/lib/canvasUtils.ts:77-110 | The loop appends, per current shape, the comparison with the first previous shape of its id. |
| CanvasChanges.EnvelopePayload | src/lib/canvasUtils.ts:40-41 | There is a segment exactly when the string holds a comma; it is the text that starts right after the first comma and runs up to the next comma or the end. |
| CanvasChanges.DetectChanges | src/lib/canvasUtils.ts:40-45 | An input without a comma gives the empty list, because decoding `undefined` throws. |
| CanvasChanges.ChangesOfDecoded | src/lib/canvasUtils.ts:112-116 | A decode failure on either side gives the empty list. |
| CanvasChanges.DecodeFailureGivesNoChanges | src/lib/canvasUtils.ts:44-45 | A failed decode of either payload makes the whole result empty, whatever the other side holds. |
| CanvasChanges.MissingShapesIsEmpty | src/lib/canvasUtils.ts:48-52 | A snapshot without a `shapes` field gives the same changes as one with an empty list, on either side. |
| CanvasChanges.FindById | src/lib/canvasUtils.ts:78 | `find` fails exactly when no shape has the id; otherwise it gives the first shape with that id. |
| CanvasChanges.IndexOfId | src/lib/canvasUtils.ts:78 | The index found holds the id and no earlier index does; no index is found when no shape holds it. |
| CanvasChanges.LocationInjective | src/lib/canvasUtils.ts:57 | Two positions with the same `x: X, y: Y` string are the same position. |
| CanvasChanges.GatherOrder | src/lib/canvasUtils.ts:52-63 | Within one pass, the record of an earlier shape comes before the records of later shapes. |
| CanvasChanges.GatherMember | src/lib/canvasUtils.ts:52-63 | A record is in a pass's output exactly when some shape of the list contributes it. |
| CanvasChanges.GatherEmpty | src/lib/canvasUtils.ts:66-74 | A pass pushes nothing exactly when no shape contributes a record. |
| CanvasChanges.CollectKind | src/lib/canvasUtils.ts:55 | Every record of a pass carries that pass's change type. |
| CanvasChanges.GroupsInOrder | src/lib/canvasUtils.ts:52-110 | All additions precede all removals, and all removals precede all modifications. |
| CanvasChanges.AdditionOfNewShape | src/lib/canvasUtils.ts:52-63 | A new current shape's addition record stands after the additions of the shapes before it, and that shape yields no modification. |
| CanvasChanges.AdditionsAreNewShapes | src/lib/canvasUtils.ts:52-63 | The additions are exactly the addition records (type, location, position) of the current shapes with new ids. |
| CanvasChanges.RemovalOfDeletedShape | src/lib/canvasUtils.ts:66-74 | A deleted previous shape's removal record stands after all additions and the removals of the shapes before it. |
| CanvasChanges.RemovalsAreDeletedShapes | src/lib/canvasUtils.ts:66-74 | The removals are exactly the removal records of the deleted previous shapes, and none carries details. |
| CanvasChanges.ModificationCases | src/lib/canvasUtils.ts:81-108 | Differing text gives one "text" record with the old and new text, absent shown as ""; it is reported instead of any geometry change. Otherwise a geometry difference gives a record of the shape's type with only the position. Otherwise there is nothing. |
| CanvasChanges.ModificationOfKeptShape | src/lib/canvasUtils.ts:77-110 | A kept shape is compared with the first previous shape of its id, and its record stands after all additions and removals, in current-list order. |
| CanvasChanges.IdenticalSnapshotsNoChanges | src/lib/canvasUtils.ts:52-110 | Two identical snapshots whose ids are unique give no changes. |
| CanvasChanges.DuplicateIdsReportChanges | src/lib/canvasUtils.ts:78-92 | With a repeated id, identical snapshots still report a text change, because `find` picks the first shape. |
| CanvasChanges.MovedRectangleAndNewText | src/lib/canvasUtils.ts:52-110 | A worked example: a moved rectangle and a new text shape give one addition, then one modification. |
| ElementInspector.ElementPosition | src/lib/element-inspector.ts:31-42 | The box is the rect moved by the page offset, or by the document scroll when the offset is 0; its size is the rect's. |
| ElementInspector.UnscrolledPositionIsRect | src/lib/element-inspector.ts:31-42 | Without scrolling the position is the rect itself. |
| ElementInspector.NonBlank | src/lib/element-inspector.ts:72 | The filter keeps the pieces that are not blank, and only those. Order and count are stated by NonBlankSingle and NonBlankAppend. |
| ElementInspector.NonBlankSingle | src/lib/element-inspector.ts:72 | One piece is kept exactly when it is not blank. |
| ElementInspector.NonBlankAppend | src/lib/element-inspector.ts:72 | Filtering a concatenation is filtering each part, so the kept pieces keep their order and their number. |
| ElementInspector.HasClassIff | src/lib/element-inspector.ts:72-73 | The class list is non-empty exactly when some piece of the split is not blank. |
| ElementInspector.Selector | src/lib/element-inspector.ts:69-77 | `getElementSelector`. Its behaviour is stated by SelectorCases, SelectorStartsWithTag, SelectorIsTagIff and SelectorListsClasses. |
| ElementInspector.SelectorCases | src/lib/element-inspector.ts:69-76 | An id gives `#id`; without one, the selector starts with the lower-cased tag and is only the tag exactly when no class is listed. |
| ElementInspector.SelectorStartsWithTag | src/lib/element-inspector.ts:73-75 | Without an id the selector begins with the lower-cased tag. |
| ElementInspector.SelectorIsTagIff | src/lib/element-inspector.ts:71-75 | Without an id the selector is the bare tag exactly when the class attribute holds no non-blank piece. |
| ElementInspector.SelectorListsClasses | src/lib/element-inspector.ts:72-73 | Splitting the selector after the tag on `.` gives back the class list, when no class holds a dot. |
| ElementInspector.NoDotInClassName | src/lib/element-inspector.ts:72 | A class name holds no dot when the attribute holds none. |
| ElementInspector.ReportedText | src/lib/element-inspector.ts:108 | "" when there is no text; otherwise the whole trimmed text when it has at most 100 characters, and exactly its first 100 when it is longer. |
| ElementInspector.ReportedTextShape | src/lib/element-inspector.ts:108 | The reported text starts with no white space and is empty exactly when the text is blank. |
| ElementInspector.Describe | src/lib/element-inspector.ts:104-109 | The data carries the element's `outerHTML`, a tag as long as the element's, and at most 100 characters of text. |
| ElementInspector.ReadyStaysFirst | src/lib/element-inspector.ts:165 | Posting any other message keeps `INSPECTOR_READY` the first and only one of its kind. |
| ElementInspector.HighlightBox.Create | src/lib/element-inspector.ts:14-28 | A new box is blue, has no position, and its `display` was never set. |
| ElementInspector.Inspector.Load | src/lib/element-inspector.ts:9-11 | After loading, the inspector is inactive with nothing selected, no box, no listeners, and `INSPECTOR_READY` as the only message. |
| ElementInspector.Inspector.HideHighlight | src/lib/element-inspector.ts:57-61 | The box, when there is one, is hidden, with its place and colours kept. |
| ElementInspector.Inspector.UpdateHighlight | src/lib/element-inspector.ts:45-54 | The box, when there is one, is displayed at the element's position, with its colours kept. |
| ElementInspector.Inspector.ToggleInspector | src/lib/element-inspector.ts:124-146 | Sets the flag and the listeners and posts the state change. Switching on creates the box only when none exists and sets the crosshair cursor. Switching off sets the default cursor and hides the box without recolouring it. |
| ElementInspector.Inspector.MouseMove | src/lib/element-inspector.ts:79-89 | While active, stops propagation and, unless the target is the box, places and shows the box over the target. Otherwise nothing changes. |
| ElementInspector.Inspector.Click | src/lib/element-inspector.ts:92-121 | While active and not on the box: selects the target, posts `ELEMENT_SELECTED` with its description and turns the box green in place. Otherwise nothing is selected or posted. |
| ElementInspector.Inspector.Receive | src/lib/element-inspector.ts:149-162 | `TOGGLE_INSPECTOR` does all that `toggleInspector` does: flag, listeners, cursor, box creation or hiding, and the posted state change. `DESELECT_ELEMENT` clears the selection and hides the box, turning it blue, in either state. Other types change nothing. |
| ElementInspector.SelectOneElement | src/lib/element-inspector.ts:149-165 | Switching on, hovering and clicking post ready, the state change and the selection, in that order. |
| ElementInspector.ClickWhileInactive | src/lib/element-inspector.ts:93 | A click before activation posts nothing and prevents nothing. |
| PreviewFrame.SkipSpace | src/lib/preview-wrapper.ts:3 | `\s*` takes the whole run of white space and stops at the first character that is not white space. |
| PreviewFrame.FindAnonExport | src/lib/preview-wrapper.ts:3 | The position found matches `export default function\s*\(`, and no earlier position does. |
| PreviewFrame.NameAnonymousExport | src/lib/preview-wrapper.ts:3 | The first rewrite. Its behaviour is stated by FirstRewriteNames and NamedExportLosesExport. |
| PreviewFrame.FirstRewriteNames | src/lib/preview-wrapper.ts:3 | The first anonymous export becomes `export default function App(`, with the text around it kept, whatever named exports or other `export default function` text come before it. |
| PreviewFrame.SecondRewriteStrips | src/lib/preview-wrapper.ts:5 | The first `export default function` becomes `function`. |
| PreviewFrame.AnonymousExportBecomesApp | src/lib/preview-wrapper.ts:3-5 | An anonymous default export that comes first becomes `function App(`, and all later code is left as it is. |
| PreviewFrame.NamedExportLosesExport | src/lib/preview-wrapper.ts:3-5 | A named default export keeps its name and loses its `export default`. |
| PreviewFrame.CopyInsideLine | src/lib/preview-wrapper.ts:8 | Within a line, the rest of the line is copied as it is. |
| PreviewFrame.CommentOneLine | src/lib/preview-wrapper.ts:8 | A line followed by a line break is rewritten by itself: `// ` before it exactly when it begins with `import `. |
| PreviewFrame.CommentLines | src/lib/preview-wrapper.ts:8 | Lines joined by `\n` are each rewritten on their own. |
| PreviewFrame.CommentImports | src/lib/preview-wrapper.ts:8 | The third rewrite. Its behaviour is stated by CopyInsideLine, CommentOneLine, CommentLines, CommentImportsByLine and NoImportLineUnchanged. |
| PreviewFrame.CommentImportsByLine | src/lib/preview-wrapper.ts:8 | Every `import ` line gets `// ` in front and every other line is unchanged. |
| PreviewFrame.UntouchedCode | src/lib/preview-wrapper.ts:3-8 | Code with no `export default function` and no line that begins with `import `, whatever its line terminators, is spliced in unchanged. |
| PreviewFrame.NoImportLineUnchanged | src/lib/preview-wrapper.ts:8 | With no line that begins with `import `, after any of the four line terminators, the third rewrite changes nothing. |
| PreviewFrame.Fill | src/lib/preview-wrapper.ts:10-98 | The page is the fixed prefix, then the code, then the fixed suffix. |
| PreviewFrame.FillInjective | src/lib/preview-wrapper.ts:10-98 | Different code gives different pages. |
| PreviewFrame.SafeCode | src/lib/preview-wrapper.ts:3-8 | The three rewrites in order. Its behaviour is stated by AnonymousExportBecomesApp, NamedExportLosesExport, CommentImportsByLine and UntouchedCode. |
| PreviewFrame.LivePreviewFrame | src/lib/preview-wrapper.ts:1-98 | `getLivePreviewFrame`: the rewritten code in the page's hole. Its behaviour is stated by Fill, FillInjective and the `SafeCode` lemmas. |
| Templates.TwoHoles | src/app/api/refine/route.ts:80-88 | With two holes, each value stands unaltered between its pieces, at offsets that can be read back. |
| Templates.ThreeHoles | src/app/api/edit-element/route.ts:8-49 | With three holes, each value stands unaltered between its pieces, at offsets that can be read back. |
| RouteText.MatchDataUri | src/app/api/generate/route.ts:47-48 | A captured type is a valid media type, and the input starts with its `data:<mime>;base64,` prefix. |
| RouteText.StripDataUri | src/app/api/generate/route.ts:51 | Without a match the input is kept; with one, it is the prefix followed by the payload. |
| RouteText.DataUriRoundTrip | src/app/api/generate/route.ts:47-51 | A data URI gives back its own media type and payload. |
| RouteText.PlainImagePart | src/app/api/generate/route.ts:47-51 | An image with no prefix is sent whole, as `image/png`. |
| RouteText.NoMatchMeansNoPrefix | src/app/api/generate/route.ts:47-48 | The match fails only on input that has no data-URI prefix. |
| RouteText.FirstFenceSkips | src/app/api/generate/route.ts:77-78 | Positions where no fence begins do not change the first match. |
| RouteText.CleanCode | src/app/api/generate/route.ts:77-85 | The result is trimmed. What it returns for a fenced and for an unfenced reply is stated by FencedReply and NoFenceReply. |
| RouteText.NoFenceReply | src/app/api/generate/route.ts:80-86 | A reply with no three backticks is only trimmed. |
| RouteText.FencedReply | src/app/api/generate/route.ts:77-85 | A reply whose first fence opens a block gives the trimmed body up to the next fence, or the whole reply trimmed when the body is empty. This holds for every header `(?:html)?\n?` takes: `html` and a newline, either one alone, or nothing. |
| RouteText.HeaderSkipped | src/app/api/generate/route.ts:77 | Each of the four headers is skipped whole: `html` and a newline, a newline, `html` with no newline after it, and nothing. |
| RouteText.NoFenceRemains | src/app/api/edit-element/route.ts:101 | After the bare-fence removal no three backticks remain. |
| RouteText.StrippedHasNoFence | src/app/api/edit-element/route.ts:99-102 | The cleaned code holds no three backticks. |
| RouteText.CopyWithoutBackticks | src/app/api/edit-element/route.ts:100-101 | Text without backticks passes through the removal unchanged. |
| RouteText.StripFences | src/app/api/edit-element/route.ts:99-102 | The result is trimmed. StrippedHasNoFence states that it holds no fence, and WrappedDocument states how it unwraps a fenced page. |
| RouteText.WrappedDocument | src/app/api/edit-element/route.ts:99-102 | A document wrapped in a fenced `html` block comes back as the trimmed document. |
| GenerateRoute.GenerateNeedsImage | src/app/api/generate/route.ts:39-44 | No image gives exactly the 400 `No image provided`, with no model call. |
| GenerateRoute.GenerateResponse | src/app/api/generate/route.ts:39-101 | The generate route's reply. Its behaviour is stated by GenerateNeedsImage, GenerateStatuses, GenerateReturnsFencedCode and GenerateReturnsPlainAnswer. |
| GenerateRoute.GenerateSendsDataUri | src/app/api/generate/route.ts:47-64 | The model receives the data URI's type and payload, then the instructions. |
| GenerateRoute.GenerateSendsPlainImage | src/app/api/generate/route.ts:47-64 | An image with no prefix is sent whole as `image/png`, then the instructions. |
| GenerateRoute.GenerateStatuses | src/app/api/generate/route.ts:70-101 | 200 with the trimmed, cleaned code exactly when there is an image and a non-empty answer; otherwise the 400 or 500 message. |
| GenerateRoute.GenerateReturnsFencedCode | src/app/api/generate/route.ts:77-93 | A fenced answer returns 200 with its block's trimmed body, whatever header the block opens with. |
| GenerateRoute.GenerateReturnsPlainAnswer | src/app/api/generate/route.ts:80-93 | An answer without a fence returns 200 with the trimmed answer. |
| GenerateRoute.DeclaredDocumentNotWarned | src/app/api/generate/route.ts:88-90 | Code containing `<!DOCTYPE html>` in any case draws no warning. |
| RefineRoute.RefineNeedsAllFields | src/app/api/refine/route.ts:23-28 | A missing image, code or instruction gives exactly the 400 message, and only then is the model not called. |
| RefineRoute.RefineResponse | src/app/api/refine/route.ts:23-134 | The refine route's reply. Its behaviour is stated by RefineNeedsAllFields and RefineAnswerAsGenerate. |
| RefineRoute.CombinedPromptLayout | src/app/api/refine/route.ts:80-88 | The prompt holds the code between the start and end markers, then the instruction after `USER_INSTRUCTION: `. Both can be read back at their offsets. |
| RefineRoute.RefineSendsDataUri | src/app/api/refine/route.ts:91-108 | The image part carries the data URI's type and payload. |
| RefineRoute.RefineAnswerAsGenerate | src/app/api/refine/route.ts:111-134 | The reply is cleaned as in the generate route: the same status, the same 200 reply, and `Failed to refine code.` otherwise. |
| EditElementRoute.EditPromptOrder | src/app/api/edit-element/route.ts:8-49 | The prompt is the page code, the element and the change request, unaltered and in that order, between the template's texts. |
| EditElementRoute.BuildContents | src/app/api/edit-element/route.ts:66-81 | The pushes give `EditContents`: the image part when an image came, then the prompt. |
| EditElementRoute.EditContentsShape | src/app/api/edit-element/route.ts:66-81 | There is an image part only for a non-empty image, and it comes first; the prompt always comes last. |
| EditElementRoute.EditSendsDataUri | src/app/api/edit-element/route.ts:69-79 | The optional image part carries the data URI's type and payload. |
| EditElementRoute.EditNeedsFields | src/app/api/edit-element/route.ts:56-61 | A missing code, element or prompt gives 400, and only then is the model not called; the image is optional. |
| EditElementRoute.EditResponse | src/app/api/edit-element/route.ts:56-116 | The edit-element route's reply. Its behaviour is stated by EditNeedsFields, EditAccepts, EditErrors and EditUnwrapsDocument. |
| EditElementRoute.EditAccepts | src/app/api/edit-element/route.ts:99-109 | 200 exactly when the fields are there, the answer is non-empty and the cleaned code holds `<!DOCTYPE` or `<html`. The code is trimmed and holds no fence. Otherwise 500 `Generated response is not valid HTML`. |
| EditElementRoute.EditErrors | src/app/api/edit-element/route.ts:92-116 | An empty answer gives 500 `No response text from Gemini`; a failed call passes its own message on. |
| EditElementRoute.EditUnwrapsDocument | src/app/api/edit-element/route.ts:99-109 | A page wrapped in a fenced `html` block comes back trimmed, with 200. |
| Strings.SplitJoin | src/lib/element-inspector.ts:72-73 | Splitting a join on a separator absent from the parts gives the parts back. |
| Strings.JoinSplit | src/lib/canvasUtils.ts:40-41 | Joining the pieces of a split with the separator gives the string back. |
| Strings.IntToStringRoundTrip | src/lib/canvasUtils.ts:57 | A printed integer reads back as itself. |
| Strings.TrimIdempotent | src/app/api/generate/route.ts:81-84 | Trimming twice is trimming once. |
| Strings.TrimEmptyIffBlank | src/lib/element-inspector.ts:72 | A string trims to nothing exactly when it is all white space. |

## Left out

- The Gemini client, the Next.js request and response objects, the API key and `req.json()` are not modelled. The model's answer is a `Reply` parameter and the HTTP reply is a status and a JSON body.
- A body that `req.json()` cannot parse is not modelled, nor is a field of another type than string. That path ends in a route's `catch` and its 500 message.
- `atob` and `JSON.parse` are a `decode` parameter of `DetectCanvasChanges`, which gives the decoded shapes or a decode error.
- Shape coordinates are integers rather than JavaScript numbers. Printing them in `x: X, y: Y` uses decimal integer notation, so fractions, exponents, `NaN` and `-0` are not modelled.
- Strings are sequences of code points, not UTF-16 code units. `substring(0, 100)` is therefore modelled on characters.
- `toLowerCase` is modelled on ASCII letters only.
- An SVG element's `className` is not a string, and that case is not modelled.
- `console.log`, `console.warn` and `console.error` are not modelled. The generate route's doctype check is stated as a predicate, because it only logs.
- The highlight box's CSS text, its transition and its DOM insertion are not modelled. The box keeps only the style fields the script changes.
- `addEventListener` deduplication is reduced to a `listening` flag.
- `postMessage` delivery is asynchronous and crosses frames. Only the ordered outbox is modelled.
- `getElementHTML` is the element's `outerHTML` field.
- The `active` field of a `TOGGLE_INSPECTOR` message is taken to be a boolean. The source passes any posted value on: its truthiness picks the branch, and the raw value is echoed in `INSPECTOR_STATE_CHANGED`.
- Element rects, page and document scroll offsets, and the box's geometry are integers rather than fractional CSS pixels. The `top`, `left`, `width` and `height` style strings with their `px` suffix are not built; the box keeps the numbers.
- PreviewFrame.CommentImportsByLine: stated for code whose only line terminator is `\n`. `CommentImports` itself treats `\r`, U+2028 and U+2029 as line starts too, as the `m` flag does, and `UntouchedCode` and `NoImportLineUnchanged` are stated for all four terminators.
- PreviewFrame.Fill: the fixed page text is stated through `Fill` on any template. `LivePreviewFrame` fills the page constants, which are too long for the verifier to reason about character by character.
- EditElementRoute.EditPromptOrder: states the prompt as one concatenation. The offsets of each value follow from `Templates.ThreeHoles`.
- CanvasChanges.IdenticalSnapshotsNoChanges: requires unique ids. With a repeated id, `find` compares a later shape with the first one of its id, so identical snapshots can report changes, as `DuplicateIdsReportChanges` shows.
- ElementInspector.Describe: states the html, the tag's length and the text's bound. The selector and the text are described by the selector lemmas and by `ReportedText`.
- The React components and the type declarations are not part of this model. No shown file injects the inspector script or calls `detectCanvasChanges`.
