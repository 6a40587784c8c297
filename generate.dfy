/**
 * `POST /api/generate`: a sketch image becomes an HTML page. The request must
 * carry a non-empty `imageBase64`; the model receives the image and fixed
 * instructions, and its reply is cleaned of a markdown fence and trimmed.
 */
module GenerateRoute {
  import opened Wrappers
  import opened Strings
  import opened RouteText

  /** The instructions sent after the image (`SYSTEM_PROMPT`). */
  const SystemPrompt: string :=
    "\n"
    + "You are an expert frontend developer specializing in HTML, CSS, and modern web design.\n"
    + "Your task is to analyze the provided screenshot of a website sketch and generate the corresponding HTML page.\n"
    + "\n"
    + "Rules:\n"
    + "1. **Output ONLY a complete HTML document.** Start with <!DOCTYPE html> and include all necessary tags.\n"
    + "2. **Use Tailwind CSS** (loaded from CDN) for all styling. Try to match the layout, spacing, and visual hierarchy of the sketch as closely as possible.\n"
    + "3. **Use placeholder images** (e.g., `https://placehold.co/600x400`) for any image rectangles in the sketch.\n"
    + "4. **Use meaningful placeholder text** (Lorem Ipsum) for text areas.\n"
    + "5. **Complete HTML Document:** Include proper <head> with meta tags, Tailwind CSS CDN, and any necessary styles.\n"
    + "6. **Responsive Design:** Make it mobile-friendly with proper viewport settings.\n"
    + "7. **Interactive Elements:** Style buttons, links, and inputs to look interactive and functional.\n"
    + "8. **Include inline JavaScript** if needed for basic interactivity (like modals, dropdowns, etc.)\n"
    + "9. **Do NOT include any markdown code fences** or explanatory text - just the HTML.\n"
    + "\n"
    + "Now, generate the complete HTML page for this sketch.\n"


  const NoImage := "No image provided"
  const GenerateFailed := "Failed to generate code. The AI might be busy or the image is too complex."

  /** What the warning looks for, compared with the lower-cased code. */
  const DoctypeMark := "<!doctype html>"

  /** The contents sent to the model: the image, then the instructions. */
  function GenerateContents(image: string): seq<Part>
  {
    [ImagePart(image), TextPart(SystemPrompt)]
  }

  /** The contents the route sends to the model: none without an image. */
  function GenerateRequest(imageBase64: Field): Option<seq<Part>>
  {
    if Truthy(imageBase64) then Some(GenerateContents(imageBase64.value)) else None
  }

  /**
   * The route's reply, given the model's answer: 400 without an image; an
   * empty or failed answer reaches the `catch` and its fixed message.
   */
  function GenerateResponse(imageBase64: Field, reply: Reply): Response
  {
    if !Truthy(imageBase64) then Response(400, Error(NoImage))
    else
      match reply
      case Text(text) =>
        if text == "" then Response(500, Error(GenerateFailed)) else Response(200, Code(CleanCode(text)))
      case Failure(_) => Response(500, Error(GenerateFailed))
  }

  /** `POST /api/generate` on the field `imageBase64`, given the model's answer to the contents sent. */
  function Generate(imageBase64: Field, reply: Reply): Outcome
  {
    Outcome(GenerateRequest(imageBase64), GenerateResponse(imageBase64, reply))
  }

  /** The condition of the warning logged for code that may not be a full document. */
  predicate MissingDoctype(code: string)
  {
    !Contains(ToLower(code), DoctypeMark)
  }

  // ----- Properties -----

  /** Without an image the route answers 400 and never calls the model. */
  lemma GenerateNeedsImage(imageBase64: Field, reply: Reply)
    ensures Generate(imageBase64, reply).request.None? <==> !Truthy(imageBase64)
    ensures !Truthy(imageBase64) ==> Generate(imageBase64, reply).response == Response(400, Error(NoImage))
  {
  }

  /** The model gets the data URI's type and payload, then the instructions. */
  lemma GenerateSendsDataUri(mime: string, payload: string, reply: Reply)
    requires ValidMime(mime)
    ensures Generate(Some(DataPrefix(mime) + payload), reply).request
            == Some([InlineData(mime, payload), TextPart(SystemPrompt)])
  {
    DataUriRoundTrip(mime, payload);
  }

  /** An image with no data-URI prefix is sent whole, as `image/png`. */
  lemma GenerateSendsPlainImage(image: string, reply: Reply)
    requires image != ""
    requires forall mime :: ValidMime(mime) && |DataPrefix(mime)| <= |image| ==> image[..|DataPrefix(mime)|] != DataPrefix(mime)
    ensures Generate(Some(image), reply).request == Some([InlineData(DefaultMimeType, image), TextPart(SystemPrompt)])
  {
    PlainImagePart(image);
  }

  /**
   * The three outcomes: 200 with the cleaned code exactly when there is an
   * image and a non-empty answer; otherwise 400 or 500 with their messages.
   */
  lemma GenerateStatuses(imageBase64: Field, reply: Reply)
    ensures var r := Generate(imageBase64, reply).response;
      && (r.status == 200 <==> Truthy(imageBase64) && reply.Text? && reply.text != "")
      && (r.status == 200 ==> r.body == Code(CleanCode(reply.text)) && IsTrimmed(r.body.code))
      && (r.status != 200 ==> r == Response(400, Error(NoImage)) || r == Response(500, Error(GenerateFailed)))
  {
  }

  /** A fenced answer gives the trimmed body of its first block, as the code. */
  lemma GenerateReturnsFencedCode(image: string, reply: string, pre: string, header: string, body: string, post: string)
    requires image != "" && body != ""
    requires reply == pre + Fence + header + body + Fence + post
    requires FenceBodyStart(reply, |pre| + |Fence|) == |pre| + |Fence| + |header|
    requires IndexOf(reply, Fence) == Some(|pre|)
    requires IndexOf(body + Fence, Fence) == Some(|body|)
    ensures GenerateResponse(Some(image), Text(reply)) == Response(200, Code(Trim(body)))
  {
    assert |reply| >= |Fence|;
    AnswerIsCleaned(image, reply);
    FencedReply(reply, pre, header, body, post);
  }

  /** With an image, a non-empty answer is returned cleaned with status 200. */
  lemma AnswerIsCleaned(image: string, text: string)
    requires image != "" && text != ""
    ensures GenerateResponse(Some(image), Text(text)) == Response(200, Code(CleanCode(text)))
  {
  }

  /** An answer with no fence is returned trimmed. */
  lemma GenerateReturnsPlainAnswer(image: string, text: string)
    requires image != "" && text != ""
    requires !Contains(text, Fence)
    ensures GenerateResponse(Some(image), Text(text)) == Response(200, Code(Trim(text)))
  {
    NoFenceReply(text);
  }

  /** Code that holds `<!DOCTYPE html>` in any case draws no warning. */
  lemma DeclaredDocumentNotWarned(pre: string, mark: string, post: string)
    requires ToLower(mark) == DoctypeMark
    ensures !MissingDoctype(pre + mark + post)
  {
    ToLowerAppend(pre, mark);
    ToLowerAppend(pre + mark, post);
    var low := ToLower(pre) + DoctypeMark + ToLower(post);
    assert ToLower(pre + mark + post) == low;
    assert low[|ToLower(pre)|..|ToLower(pre)| + |DoctypeMark|] == DoctypeMark;
    assert OccursAt(low, DoctypeMark, |ToLower(pre)|);
  }
}
