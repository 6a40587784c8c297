/**
 * `POST /api/edit-element`: one selected element of a page is changed as the
 * user asks. The request must carry the page code, the element's HTML and the
 * instruction, and may carry the sketch image; the reply's fences are all
 * removed and the result must look like HTML.
 */
module EditElementRoute {
  import opened Wrappers
  import opened Strings
  import opened Templates
  import opened RouteText

  /** The prompt's text before the page code. */
  const PromptHead: string :=
    "\n"
    + "You are an expert frontend developer performing a SURGICAL, TARGETED edit on a specific HTML element.\n"
    + "\n"
    + "**CRITICAL RULES:**\n"
    + "1. **ONLY modify the selected element** - Do NOT change anything else in the page\n"
    + "2. **Maintain the overall page structure** - Keep all other elements exactly as they are\n"
    + "3. **Apply ONLY the requested change** - Don't add features that weren't asked for\n"
    + "4. **Preserve functionality** - Keep existing classes, IDs, and JavaScript interactions\n"
    + "5. **Return the COMPLETE HTML document** with ONLY the selected element modified\n"
    + "\n"
    + "**CURRENT FULL PAGE CODE:**\n"
    + "```html\n"

  /** The prompt's text between the page code and the selected element. */
  const PromptAfterCode: string :=
    "\n"
    + "```\n"
    + "\n"
    + "**SELECTED ELEMENT TO MODIFY:**\n"
    + "```html\n"

  /** The prompt's text between the selected element and the requested change. */
  const PromptAfterElement: string :=
    "\n"
    + "```\n"
    + "\n"
    + "**USER'S REQUESTED CHANGE:**\n"

  /** The prompt's text after the requested change. */
  const PromptTail: string :=
    "\n"
    + "\n"
    + "**YOUR TASK:**\n"
    + "1. Locate the selected element in the full page code\n"
    + "2. Apply ONLY the requested change to that specific element\n"
    + "3. Keep everything else in the page EXACTLY the same\n"
    + "4. Return the complete HTML document with the modification applied\n"
    + "\n"
    + "**IMPORTANT:**\n"
    + "- Return ONLY the complete HTML (no markdown code fences)\n"
    + "- Make surgical, precise changes\n"
    + "- Don't refactor or \"improve\" unrequested parts\n"
    + "- Preserve all Tailwind classes unless specifically asked to change them\n"
    + "- Keep all existing functionality, scripts, and styles intact\n"
    + "\n"
    + "Now, apply the requested change to the selected element and return the updated full HTML.\n"


  const MissingEditFields := "Missing required fields: previousCode, selectedElementHTML, or userPrompt"
  const NoResponseText := "No response text from Gemini"
  const NotHtml := "Generated response is not valid HTML"
  const EditFailed := "Failed to edit element"

  /** The fixed text of the prompt template. */
  const PromptPieces := [PromptHead, PromptAfterCode, PromptAfterElement, PromptTail]

  /** `getElementEditPrompt(previousCode, selectedElementHTML, userPrompt)`. */
  function ElementEditPrompt(previousCode: string, selectedElementHTML: string, userPrompt: string): string
  {
    Interpolate(PromptPieces, [previousCode, selectedElementHTML, userPrompt])
  }

  /** The `contents` list: the image part when an image came with the request, then the prompt. */
  function EditContents(imageBase64: Field, prompt: string): seq<Part>
  {
    (if Truthy(imageBase64) then [ImagePart(imageBase64.value)] else []) + [TextPart(prompt)]
  }

  /** The route builds `contents` by pushing onto an empty list. */
  method BuildContents(imageBase64: Field, prompt: string) returns (contents: seq<Part>)
    ensures contents == EditContents(imageBase64, prompt)
  {
    contents := [];
    if Truthy(imageBase64) {
      var image := imageBase64.value;
      var base64Data := StripDataUri(image);
      var mimeType := MatchDataUri(image).GetOr(DefaultMimeType);
      contents := contents + [InlineData(mimeType, base64Data)];
    }
    contents := contents + [TextPart(prompt)];
  }

  predicate HasRequiredFields(previousCode: Field, selectedElementHTML: Field, userPrompt: Field)
  {
    Truthy(previousCode) && Truthy(selectedElementHTML) && Truthy(userPrompt)
  }

  /** The contents sent to the model, when the required fields are there. */
  function EditRequest(previousCode: Field, selectedElementHTML: Field, userPrompt: Field, imageBase64: Field)
    : Option<seq<Part>>
  {
    if HasRequiredFields(previousCode, selectedElementHTML, userPrompt) then
      Some(EditContents(imageBase64, ElementEditPrompt(previousCode.value, selectedElementHTML.value, userPrompt.value)))
    else None
  }

  /**
   * The route's reply, given the model's answer. Errors thrown inside the
   * `try` reach the `catch`, which answers 500 with the error's message.
   */
  function EditResponse(previousCode: Field, selectedElementHTML: Field, userPrompt: Field, reply: Reply): Response
  {
    if !HasRequiredFields(previousCode, selectedElementHTML, userPrompt) then Response(400, Error(MissingEditFields))
    else
      match reply
      case Failure(message) => Response(500, Error(if message != "" then message else EditFailed))
      case Text(text) =>
        if text == "" then Response(500, Error(NoResponseText))
        else
          var code := StripFences(text);
          if !LooksLikeHtml(code) then Response(500, Error(NotHtml)) else Response(200, Code(code))
  }

  /** `POST /api/edit-element`, given the model's answer to the contents sent. */
  function EditElement(previousCode: Field, selectedElementHTML: Field, userPrompt: Field, imageBase64: Field,
                       reply: Reply): Outcome
  {
    Outcome(EditRequest(previousCode, selectedElementHTML, userPrompt, imageBase64),
            EditResponse(previousCode, selectedElementHTML, userPrompt, reply))
  }

  // ----- Properties -----

  /**
   * The prompt quotes the page code, then the selected element, then the
   * requested change, each unaltered and in that order, with the template's
   * text between them.
   */
  lemma EditPromptOrder(previousCode: string, selectedElementHTML: string, userPrompt: string)
    ensures ElementEditPrompt(previousCode, selectedElementHTML, userPrompt)
            == PromptHead + previousCode + PromptAfterCode + selectedElementHTML + PromptAfterElement + userPrompt + PromptTail
  {
    ThreeHoles(PromptHead, previousCode, PromptAfterCode, selectedElementHTML, PromptAfterElement, userPrompt, PromptTail);
  }

  /** An image part is sent only for a non-empty image, always first; the prompt is always last. */
  lemma EditContentsShape(imageBase64: Field, prompt: string)
    ensures var c := EditContents(imageBase64, prompt);
      && |c| == (if Truthy(imageBase64) then 2 else 1)
      && c[|c| - 1] == TextPart(prompt)
      && (Truthy(imageBase64) ==> c[0] == ImagePart(imageBase64.value))
  {
  }

  /** The optional image is read as in the other routes: its type and payload come from the data URI. */
  lemma EditSendsDataUri(mime: string, payload: string, prompt: string)
    requires ValidMime(mime)
    ensures EditContents(Some(DataPrefix(mime) + payload), prompt) == [InlineData(mime, payload), TextPart(prompt)]
  {
    DataUriRoundTrip(mime, payload);
  }

  /** A missing or empty required field gives 400 and no model call; the image is never required. */
  lemma EditNeedsFields(previousCode: Field, selectedElementHTML: Field, userPrompt: Field, imageBase64: Field,
                        reply: Reply)
    ensures EditRequest(previousCode, selectedElementHTML, userPrompt, imageBase64).None?
            <==> !Truthy(previousCode) || !Truthy(selectedElementHTML) || !Truthy(userPrompt)
    ensures !HasRequiredFields(previousCode, selectedElementHTML, userPrompt)
            ==> EditResponse(previousCode, selectedElementHTML, userPrompt, reply) == Response(400, Error(MissingEditFields))
  {
  }

  /**
   * The route answers 200 exactly when the fields are there, the answer is
   * not empty, and its cleaned text contains `<!DOCTYPE` or `<html`; the code
   * it returns is trimmed and holds no fence. Cleaned text without either
   * mark is refused with a 500.
   */
  lemma EditAccepts(previousCode: Field, selectedElementHTML: Field, userPrompt: Field, reply: Reply)
    ensures var r := EditResponse(previousCode, selectedElementHTML, userPrompt, reply);
      && (r.status == 200 <==>
            && HasRequiredFields(previousCode, selectedElementHTML, userPrompt)
            && reply.Text? && reply.text != "" && LooksLikeHtml(StripFences(reply.text)))
      && (r.status == 200 ==> r.body == Code(StripFences(reply.text)))
      && (r.status == 200 ==> IsTrimmed(r.body.code) && !Contains(r.body.code, Fence))
      && (r.status != 200 ==> r.status == 400 || r.status == 500)
      && ((HasRequiredFields(previousCode, selectedElementHTML, userPrompt) && reply.Text? && reply.text != ""
           && !LooksLikeHtml(StripFences(reply.text))) ==> r == Response(500, Error(NotHtml)))
  {
    if reply.Text? {
      StrippedHasNoFence(reply.text);
    }
  }

  /** An empty answer is refused with a 500 saying so; a failed call passes its own message on. */
  lemma EditErrors(previousCode: string, selectedElementHTML: string, userPrompt: string, message: string)
    requires previousCode != "" && selectedElementHTML != "" && userPrompt != ""
    ensures EditResponse(Some(previousCode), Some(selectedElementHTML), Some(userPrompt), Text(""))
            == Response(500, Error(NoResponseText))
    ensures message != "" ==>
      EditResponse(Some(previousCode), Some(selectedElementHTML), Some(userPrompt), Failure(message))
      == Response(500, Error(message))
  {
  }

  /** A page wrapped in an ```` ```html ```` block comes back as the trimmed page. */
  lemma EditUnwrapsDocument(previousCode: string, selectedElementHTML: string, userPrompt: string, doc: string)
    requires previousCode != "" && selectedElementHTML != "" && userPrompt != ""
    requires '`' !in doc && LooksLikeHtml(Trim(doc))
    ensures EditResponse(Some(previousCode), Some(selectedElementHTML), Some(userPrompt), Text("```html\n" + doc + "\n```"))
            == Response(200, Code(Trim(doc)))
  {
    WrappedDocument(doc);
  }
}
