/**
 * `POST /api/refine`: existing HTML is rewritten following a user's
 * instruction. The request must carry the sketch image, the previous code and
 * the instruction; the model receives the image, fixed instructions and a
 * prompt that quotes the previous code and the instruction, and its reply is
 * cleaned exactly as the generate route cleans it.
 */
module RefineRoute {
  import opened Wrappers
  import opened Strings
  import opened Templates
  import opened RouteText
  import GenerateRoute

  /** The instructions sent after the image (`REFINEMENT_SYSTEM_PROMPT`). */
  const RefinementSystemPrompt: string :=
    "\n"
    + "    You are an expert HTML/CSS/Tailwind developer and design analyst.\n"
    + "    Your task is to INTELLIGENTLY MODIFY existing HTML code based on a user's request while understanding context.\n"
    + "\n"
    + "    **CONTEXT AWARENESS:**\n"
    + "    1. Analyze the ORIGINAL_IMAGE to understand what was sketched\n"
    + "    2. Read any text in the sketch to understand the website's purpose and brand\n"
    + "    3. Understand the current EXISTING_CODE structure and design intent\n"
    + "    4. Apply USER_INSTRUCTION intelligently based on this context\n"
    + "\n"
    + "    **INTELLIGENT IMAGE HANDLING (when relevant to changes):**\n"
    + "    1. **For logos and brand images:**\n"
    + "       - If brand names mentioned: Use `https://logo.clearbit.com/{domain}.com`\n"
    + "       - Alternative: `https://img.logo.dev/{domain}.com?token=pk_X-DqKTuxQOuNvPn6T7bqUA`\n"
    + "       - Fallback: `https://ui-avatars.com/api/?name={BrandName}&size=200&background=random`\n"
    + "\n"
    + "    2. **For content images:**\n"
    + "       - Use context-appropriate Unsplash images: `https://source.unsplash.com/800x600/?{keyword}`\n"
    + "       - Keywords should match the site's context (tech, food, fashion, travel, etc.)\n"
    + "\n"
    + "    3. **Maintain or improve** existing image choices unless user specifically requests changes\n"
    + "\n"
    + "    **MODIFICATION RULES:**\n"
    + "    1. **Understand the intent** - If user says \"make it modern\", don't just change one thing, modernize the whole design\n"
    + "    2. **Be smart about changes**:\n"
    + "       - \"Make it bigger\" \U{2192} Increase size proportionally, adjust spacing\n"
    + "       - \"Change color\" \U{2192} Update color scheme cohesively across related elements\n"
    + "       - \"Add a section\" \U{2192} Create it in the appropriate style matching the existing design\n"
    + "       - \"Make it professional\" \U{2192} Refine typography, spacing, colors, add subtle effects\n"
    + "    3. **Maintain functionality** - Don't break existing JavaScript or interactive features\n"
    + "    4. **Improve while changing** - If making updates, also fix any minor issues you notice\n"
    + "    5. **Keep the structure** unless user explicitly asks to restructure\n"
    + "    6. **Preserve context** - Keep brand elements, logos, and theme consistent\n"
    + "\n"
    + "    **OUTPUT REQUIREMENTS:**\n"
    + "    1. Output ONLY the complete, updated HTML document\n"
    + "    2. No markdown fences, no explanations\n"
    + "    3. Start with <!DOCTYPE html>\n"
    + "    4. Maintain Tailwind CSS usage\n"
    + "    5. Ensure responsive design is preserved\n"
    + "    6. Test that all changes are cohesive with the overall design\n"
    + "\n"
    + "    **QUALITY:**\n"
    + "    - Professional, polished result\n"
    + "    - Smooth transitions and animations where appropriate\n"
    + "    - Accessibility maintained\n"
    + "    - Mobile responsiveness preserved\n"
    + "    "

  /** The text of `combinedPrompt` before the previous code. */
  const CodeStartMarker: string :=
    "\n"
    + "    [EXISTING_CODE_START]\n"
    + "    "

  /** The text of `combinedPrompt` between the previous code and the user's instruction. */
  const InstructionMarker: string :=
    "\n"
    + "    [EXISTING_CODE_END]\n"
    + "\n"
    + "    USER_INSTRUCTION: "

  /** The text of `combinedPrompt` after the user's instruction. */
  const CombinedTail: string :=
    "\n"
    + "\n"
    + "    Please analyze the context, understand the intent, and update the code intelligently following the instruction.\n"
    + "    "


  const MissingRefineData := "Missing required data for refinement"
  const RefineFailed := "Failed to refine code."

  /** The fixed text of the `combinedPrompt` template literal. */
  const CombinedPieces := [CodeStartMarker, InstructionMarker, CombinedTail]

  /** `combinedPrompt`: the previous code, then the user's instruction, in the template. */
  function CombinedPrompt(previousCode: string, userPrompt: string): string
  {
    Interpolate(CombinedPieces, [previousCode, userPrompt])
  }

  predicate HasAllFields(imageBase64: Field, previousCode: Field, userPrompt: Field)
  {
    Truthy(imageBase64) && Truthy(previousCode) && Truthy(userPrompt)
  }

  /** The contents sent to the model: the image, the instructions, then the combined prompt. */
  function RefineRequest(imageBase64: Field, previousCode: Field, userPrompt: Field): Option<seq<Part>>
  {
    if HasAllFields(imageBase64, previousCode, userPrompt) then
      Some([ImagePart(imageBase64.value), TextPart(RefinementSystemPrompt),
            TextPart(CombinedPrompt(previousCode.value, userPrompt.value))])
    else None
  }

  /** The route's reply, given the model's answer. */
  function RefineResponse(imageBase64: Field, previousCode: Field, userPrompt: Field, reply: Reply): Response
  {
    if !HasAllFields(imageBase64, previousCode, userPrompt) then Response(400, Error(MissingRefineData))
    else
      match reply
      case Text(text) =>
        if text == "" then Response(500, Error(RefineFailed)) else Response(200, Code(CleanCode(text)))
      case Failure(_) => Response(500, Error(RefineFailed))
  }

  /** `POST /api/refine`, given the model's answer to the contents sent. */
  function Refine(imageBase64: Field, previousCode: Field, userPrompt: Field, reply: Reply): Outcome
  {
    Outcome(RefineRequest(imageBase64, previousCode, userPrompt),
            RefineResponse(imageBase64, previousCode, userPrompt, reply))
  }

  // ----- Properties -----

  /** A missing or empty field of the three gives 400, and the model is not called. */
  lemma RefineNeedsAllFields(imageBase64: Field, previousCode: Field, userPrompt: Field, reply: Reply)
    ensures RefineRequest(imageBase64, previousCode, userPrompt).None?
            <==> !Truthy(imageBase64) || !Truthy(previousCode) || !Truthy(userPrompt)
    ensures !Truthy(imageBase64) || !Truthy(previousCode) || !Truthy(userPrompt)
            ==> RefineResponse(imageBase64, previousCode, userPrompt, reply) == Response(400, Error(MissingRefineData))
  {
  }

  /**
   * The combined prompt holds the previous code right after the start marker
   * and right before the end marker, then the instruction after
   * `USER_INSTRUCTION: ` and before the closing text; both can be read back
   * at their places.
   */
  lemma CombinedPromptLayout(previousCode: string, userPrompt: string)
    ensures CombinedPrompt(previousCode, userPrompt)
            == CodeStartMarker + previousCode + InstructionMarker + userPrompt + CombinedTail
    ensures var p := CombinedPrompt(previousCode, userPrompt); var i := |CodeStartMarker|;
      var j := i + |previousCode| + |InstructionMarker|;
      && p[i..i + |previousCode|] == previousCode
      && p[i + |previousCode|..j] == InstructionMarker
      && p[j..j + |userPrompt|] == userPrompt
  {
    TwoHoles(CodeStartMarker, previousCode, InstructionMarker, userPrompt, CombinedTail);
  }

  /** The image part carries the data URI's type and payload, as in the generate route. */
  lemma RefineSendsDataUri(mime: string, payload: string, previousCode: string, userPrompt: string)
    requires ValidMime(mime) && previousCode != "" && userPrompt != ""
    ensures RefineRequest(Some(DataPrefix(mime) + payload), Some(previousCode), Some(userPrompt)).value[0]
            == InlineData(mime, payload)
  {
    DataUriRoundTrip(mime, payload);
  }

  /** The reply is cleaned as in the generate route; only the failure message differs. */
  lemma RefineAnswerAsGenerate(image: string, previousCode: string, userPrompt: string, reply: Reply)
    requires image != "" && previousCode != "" && userPrompt != ""
    ensures var r := RefineResponse(Some(image), Some(previousCode), Some(userPrompt), reply);
      var g := GenerateRoute.GenerateResponse(Some(image), reply);
      && r.status == g.status
      && (r.status == 200 ==> r == g)
      && (r.status != 200 ==> r == Response(500, Error(RefineFailed)))
  {
  }
}
