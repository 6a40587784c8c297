/**
 * What the three API routes share: the request fields and the JSON replies,
 * the parts sent to the model, the `data:<mime>;base64,` prefix of an uploaded
 * image (the syntax of RFC 2397), and the clean-up of the model's markdown
 * code fences.
 */
module RouteText {
  import opened Wrappers
  import opened Strings

  // ----- Requests, model calls and replies -----

  /** A request field as destructured from the JSON body: `None` when it is missing. */
  type Field = Option<string>

  /** `!field` is false: the field is present and not the empty string. */
  predicate Truthy(field: Field)
  {
    field.Some? && field.value != ""
  }

  /** One entry of the `contents` list handed to the model. */
  datatype Part = InlineData(mimeType: string, data: string) | TextPart(text: string)

  /**
   * What the model call gives back: its `text` (the empty string also stands
   * for an undefined `text`), or a failure of the call with its error message.
   */
  datatype Reply = Text(text: string) | Failure(message: string)

  /** The JSON body of a route's reply. */
  datatype Body = Code(code: string) | Error(error: string)

  datatype Response = Response(status: int, body: Body)

  /** A route's run: the contents it sent to the model, if it called it, and its reply. */
  datatype Outcome = Outcome(request: Option<seq<Part>>, response: Response)

  // ----- Data URIs -----

  const DataScheme := "data:"
  const Base64Marker := ";base64,"
  const DefaultMimeType := "image/png"

  /** A media type the pattern `[^;]+` accepts. */
  predicate ValidMime(mime: string)
  {
    mime != [] && ';' !in mime
  }

  /** The prefix `data:<mime>;base64,`. */
  function DataPrefix(mime: string): string
  {
    DataScheme + mime + Base64Marker
  }

  /**
   * The capture of `^data:([^;]+);base64,` in `s`, if it matches. `[^;]+`
   * stops at the first `;`, and a shorter capture would leave a character
   * other than `;` before `;base64,`, so the first `;` decides the match.
   */
  function MatchDataUri(s: string): (mime: Option<string>)
    ensures mime.Some? ==> ValidMime(mime.value)
    ensures mime.Some? ==> |DataPrefix(mime.value)| <= |s| && s[..|DataPrefix(mime.value)|] == DataPrefix(mime.value)
  {
    if |s| >= |DataScheme| && s[..|DataScheme|] == DataScheme then
      var rest := s[|DataScheme|..];
      match IndexOf(rest, ";")
      case None => None
      case Some(k) =>
        if k > 0 && OccursAt(rest, Base64Marker, k) then
          NoSemicolonBefore(rest, k);
          assert s == DataScheme + rest;
          assert rest[..k + |Base64Marker|] == rest[..k] + Base64Marker;
          Some(rest[..k])
        else None
    else None
  }

  lemma NoSemicolonBefore(s: string, k: nat)
    requires IndexOf(s, ";") == Some(k)
    ensures ';' !in s[..k]
  {
    forall j | 0 <= j < k
      ensures s[j] != ';'
    {
      OccursAtChar(s, ';', j);
    }
  }

  /** The MIME type sent with the image: the captured type, or `image/png` when there is none. */
  function MimeType(s: string): string
  {
    MatchDataUri(s).GetOr(DefaultMimeType)
  }

  /** `s.replace(/^data:[^;]+;base64,/, "")`: the payload after the prefix. */
  function StripDataUri(s: string): (payload: string)
    ensures MatchDataUri(s).None? ==> payload == s
    ensures MatchDataUri(s).Some? ==> s == DataPrefix(MatchDataUri(s).value) + payload
  {
    match MatchDataUri(s)
    case None => s
    case Some(mime) => s[|DataPrefix(mime)|..]
  }

  /** The `inlineData` part built from an uploaded image. */
  function ImagePart(image: string): Part
  {
    InlineData(MimeType(image), StripDataUri(image))
  }

  /** A data URI gives back its media type and its payload. */
  lemma DataUriRoundTrip(mime: string, payload: string)
    requires ValidMime(mime)
    ensures MatchDataUri(DataPrefix(mime) + payload) == Some(mime)
    ensures ImagePart(DataPrefix(mime) + payload) == InlineData(mime, payload)
  {
    var s := DataPrefix(mime) + payload;
    var rest := mime + [';'] + ("base64," + payload);
    assert s[..|DataScheme|] == DataScheme;
    assert s[|DataScheme|..] == rest;
    IndexOfFirstChar(mime, ';', "base64," + payload);
    assert rest[|mime|..|mime| + |Base64Marker|] == Base64Marker;
    assert rest[..|mime|] == mime;
  }

  /** Input with no data-URI prefix is sent as it is, as `image/png`. */
  lemma PlainImagePart(image: string)
    requires forall mime :: ValidMime(mime) && |DataPrefix(mime)| <= |image| ==> image[..|DataPrefix(mime)|] != DataPrefix(mime)
    ensures ImagePart(image) == InlineData(DefaultMimeType, image)
  {
  }

  /** The match is exact: it fails only on input that starts with no data-URI prefix. */
  lemma NoMatchMeansNoPrefix(image: string)
    requires MatchDataUri(image).None?
    ensures forall mime :: ValidMime(mime) && |DataPrefix(mime)| <= |image| ==> image[..|DataPrefix(mime)|] != DataPrefix(mime)
  {
    forall mime | ValidMime(mime) && |DataPrefix(mime)| <= |image|
      ensures image[..|DataPrefix(mime)|] != DataPrefix(mime)
    {
      var n := |DataPrefix(mime)|;
      if image[..n] == DataPrefix(mime) {
        assert image == DataPrefix(mime) + image[n..];
        DataUriRoundTrip(mime, image[n..]);
      }
    }
  }

  // ----- Markdown fences: the first fenced block (generate and refine) -----

  const Fence := "```"

  /**
   * Where the body of a block opened just before `i` begins: `(?:html)?` and
   * `\n?` take their text whenever it is there.
   */
  function FenceBodyStart(s: string, i: nat): (b: nat)
    requires i <= |s|
    ensures i <= b <= |s|
  {
    var j := if OccursAt(s, "html", i) then i + 4 else i;
    if j < |s| && s[j] == '\n' then j + 1 else j
  }

  /**
   * The capture of ```` ```(?:html)?\n?([\s\S]*?)``` ```` matched from index `i`:
   * the text up to the first fence after the body's start. When that fails,
   * dropping `html` or the newline cannot help, since no fence can begin
   * inside them.
   */
  function FenceMatchAt(s: string, i: nat): Option<string>
  {
    if OccursAt(s, Fence, i) then
      var b := FenceBodyStart(s, i + |Fence|);
      match IndexOf(s[b..], Fence)
      case None => None
      case Some(k) => Some(s[b..b + k])
    else None
  }

  /** `text.match(codeBlockRegex)[1]`: the capture of the leftmost match at or after `from`. */
  function FirstFence(s: string, from: nat): Option<string>
    decreases |s| - from
  {
    if from + |Fence| > |s| then None
    else
      match FenceMatchAt(s, from)
      case Some(body) => Some(body)
      case None => FirstFence(s, from + 1)
  }

  /**
   * The code the generate and refine routes return: the fenced block's body
   * trimmed, or the whole reply trimmed when there is no block or its body is
   * empty (an empty capture is falsy).
   */
  function CleanCode(text: string): (code: string)
    ensures IsTrimmed(code)
  {
    match FirstFence(text, 0)
    case Some(body) => if body != "" then Trim(body) else Trim(text)
    case None => Trim(text)
  }

  /** Starting positions that cannot open a fence do not change the first match. */
  lemma {:induction false} FirstFenceSkips(s: string, from: nat, i: nat)
    requires from <= i
    requires forall j: nat :: from <= j < i ==> !OccursAt(s, Fence, j)
    ensures FirstFence(s, from) == FirstFence(s, i)
    decreases i - from
  {
    if from < i && from + |Fence| <= |s| {
      FirstFenceSkips(s, from + 1, i);
    } else if from < i {
      FirstFenceSkips(s, from + 1, i);
    }
  }

  /** A reply with no three backticks is only trimmed. */
  lemma NoFenceReply(text: string)
    requires !Contains(text, Fence)
    ensures CleanCode(text) == Trim(text)
  {
    FirstFenceSkips(text, 0, |text|);
  }

  /**
   * A reply's first fenced block yields its trimmed body up to the next fence;
   * the text before and after the block is dropped. `header` is whatever
   * `(?:html)?\n?` takes after the opening fence: `html` and a newline, either
   * one, or nothing. An empty body gives the whole reply trimmed.
   */
  lemma FencedReply(reply: string, pre: string, header: string, body: string, post: string)
    requires reply == pre + Fence + header + body + Fence + post
    requires FenceBodyStart(reply, |pre| + |Fence|) == |pre| + |Fence| + |header|
    requires IndexOf(reply, Fence) == Some(|pre|)
    requires IndexOf(body + Fence, Fence) == Some(|body|)
    ensures CleanCode(reply) == if body != "" then Trim(body) else Trim(reply)
  {
    FirstFenceSkips(reply, 0, |pre|);
    BlockAfterPrefix(reply, pre, header, body, post);
  }

  /** The match that starts at the block's opening fence captures its body. */
  lemma BlockAfterPrefix(s: string, pre: string, header: string, body: string, post: string)
    requires s == pre + Fence + header + body + Fence + post
    requires FenceBodyStart(s, |pre| + |Fence|) == |pre| + |Fence| + |header|
    requires IndexOf(body + Fence, Fence) == Some(|body|)
    ensures FenceMatchAt(s, |pre|) == Some(body)
  {
    var i := |pre| + |Fence|;
    var b := i + |header|;
    BlockSlices(pre, Fence, header, body, Fence + post);
    Regroup(pre, Fence, header, body, Fence, post);
    assert s[|pre|..i] == Fence;
    assert s[b..] == body + (Fence + post);
    assert s[b..b + |body|] == body;
    BodyThenFence(body, Fence, post);
    MatchFromBody(s, |pre|, b, body);
  }

  lemma Regroup(a: string, b: string, c: string, d: string, e: string, f: string)
    ensures a + b + c + d + e + f == a + b + c + d + (e + f)
  {
  }

  /** The fence right after a body with no fence of its own is its first one, whatever follows. */
  lemma BodyThenFence(body: string, fence: string, post: string)
    requires IndexOf(body + fence, fence) == Some(|body|)
    ensures IndexOf(body + (fence + post), fence) == Some(|body|)
  {
    assert body + (fence + post) == (body + fence) + post;
    IndexOfExtend(body + fence, post, fence);
  }

  /** The pieces of `a + b + c + d + e` as slices. */
  lemma BlockSlices(a: string, b: string, c: string, d: string, e: string)
    ensures var s := a + b + c + d + e; var i := |a| + |b|; var j := i + |c|;
      && s[|a|..i] == b && s[i..j] == c && s[j..] == d + e && s[j..j + |d|] == d
  {
  }

  lemma MatchFromBody(s: string, at: nat, b: nat, body: string)
    requires OccursAt(s, Fence, at) && at + |Fence| <= b <= |s|
    requires FenceBodyStart(s, at + |Fence|) == b
    requires IndexOf(s[b..], Fence) == Some(|body|)
    requires b + |body| <= |s| && s[b..b + |body|] == body
    ensures FenceMatchAt(s, at) == Some(body)
  {
  }

  /**
   * The four headers `(?:html)?\n?` takes: `html` and a newline, a newline,
   * `html` not followed by a newline, and nothing before a character that
   * starts neither.
   */
  lemma HeaderSkipped(s: string, i: nat, header: string)
    requires header == "html\n" || header == "\n" || header == "html" || header == ""
    requires i + |header| <= |s| && s[i..i + |header|] == header
    requires header == "html" ==> i + 4 == |s| || s[i + 4] != '\n'
    requires header == "" ==> !OccursAt(s, "html", i) && (i == |s| || s[i] != '\n')
    ensures FenceBodyStart(s, i) == i + |header|
  {
    if header == "html\n" {
      assert s[i..i + 4] == s[i..i + |header|][..4];
      assert header[..4] == "html";
      assert s[i + 4] == header[4];
    } else if header == "html" {
      assert OccursAt(s, "html", i);
    } else if header == "\n" {
      assert s[i] == header[0];
      assert !OccursAt(s, "html", i) by {
        assert "html"[0] != '\n';
      }
    }
  }

  // ----- Markdown fences: removed everywhere (edit-element) -----

  /**
   * `s.replace(/```tag\n?/g, "")`: every fence followed by `tag` is removed,
   * with the newline right after it when there is one, scanning from the left.
   */
  function RemoveFences(s: string, tag: string): (r: string)
    ensures |r| <= |s|
    decreases |s|
  {
    if OccursAt(s, Fence + tag, 0) then
      var n := |Fence + tag|;
      RemoveFences(s[if n < |s| && s[n] == '\n' then n + 1 else n..], tag)
    else if s == [] then []
    else [s[0]] + RemoveFences(s[1..], tag)
  }

  /** The edit-element clean-up: fences with `html`, then bare fences, then `trim`. */
  function StripFences(text: string): (code: string)
    ensures IsTrimmed(code)
  {
    Trim(RemoveFences(RemoveFences(text, "html"), ""))
  }

  /**
   * Removing bare fences leaves none behind, and the result starts with a
   * backtick (or two) only where the input did.
   */
  lemma {:induction false} NoFenceRemains(s: string)
    ensures forall j: nat :: !OccursAt(RemoveFences(s, ""), Fence, j)
    ensures var r := RemoveFences(s, ""); r != [] && r[0] == '`' ==> s != [] && s[0] == '`'
    ensures var r := RemoveFences(s, ""); |r| >= 2 && r[0] == '`' && r[1] == '`' ==> |s| >= 2 && s[0] == '`' && s[1] == '`'
    decreases |s|
  {
    var r := RemoveFences(s, "");
    assert Fence + "" == Fence;
    if OccursAt(s, Fence, 0) {
      var n := if 3 < |s| && s[3] == '\n' then 4 else 3;
      NoFenceRemains(s[n..]);
      assert s[..3] == Fence;
    } else if s != [] {
      var t := RemoveFences(s[1..], "");
      NoFenceRemains(s[1..]);
      assert r == [s[0]] + t;
      OccursAtTail(r, Fence);
      assert r[1..] == t;
    }
  }

  /** After the edit-element clean-up the code holds no three backticks. */
  lemma StrippedHasNoFence(text: string)
    ensures !Contains(StripFences(text), Fence)
  {
    NoFenceRemains(RemoveFences(text, "html"));
    AbsentAfterTrim(RemoveFences(RemoveFences(text, "html"), ""), Fence);
  }

  /** Trimming cannot create an occurrence. */
  lemma AbsentAfterTrim(r: string, pat: string)
    requires forall j: nat :: !OccursAt(r, pat, j)
    ensures !Contains(Trim(r), pat)
  {
    var k := |r| - |TrimStart(r)|;
    var t := TrimEnd(TrimStart(r));
    assert t == r[k..k + |t|];
    AbsentFromSlice(r, k, k + |t|, pat);
  }

  /** A pattern absent from a string is absent from each of its slices. */
  lemma AbsentFromSlice(s: string, i: nat, j: nat, pat: string)
    requires i <= j <= |s|
    requires forall m: nat :: !OccursAt(s, pat, m)
    ensures forall m: nat :: !OccursAt(s[i..j], pat, m)
  {
    forall m: nat
      ensures !OccursAt(s[i..j], pat, m)
    {
      if m + |pat| <= j - i {
        var u := s[i..j][m..m + |pat|];
        var v := s[i + m..i + m + |pat|];
        assert forall q :: 0 <= q < |pat| ==> u[q] == v[q];
        assert u == v;
        assert !OccursAt(s, pat, i + m);
      }
    }
  }

  /** Text with no backtick is copied unchanged by the fence removal. */
  lemma {:induction false} CopyWithoutBackticks(x: string, rest: string, tag: string)
    requires '`' !in x
    ensures RemoveFences(x + rest, tag) == x + RemoveFences(rest, tag)
    decreases |x|
  {
    if x != [] {
      var s := x + rest;
      assert s[0] == x[0];
      assert !OccursAt(s, Fence + tag, 0) by {
        assert (Fence + tag)[0] == '`';
      }
      assert s[1..] == x[1..] + rest;
      CopyWithoutBackticks(x[1..], rest, tag);
    } else {
      assert x + rest == rest;
    }
  }

  /** The fences of a reply wrapped as ```` ```html ```` … ```` ``` ```` go, and the document is trimmed. */
  lemma WrappedDocument(doc: string)
    requires '`' !in doc
    ensures StripFences("```html\n" + doc + "\n```") == Trim(doc)
  {
    var line := doc + "\n";
    assert "```html\n" + doc + "\n```" == "```html\n" + (line + Fence);
    OpeningFenceRemoved(line + Fence);
    CopyWithoutBackticks(line, Fence, "html");
    BareFenceKeptByHtmlPass();
    CopyWithoutBackticks(line, Fence, "");
    BareFenceRemoved();
    assert line + "" == line;
    TrimAppendBlank(doc, "\n");
  }

  /** An opening ```` ```html ```` fence and its newline are removed. */
  lemma OpeningFenceRemoved(rest: string)
    ensures RemoveFences("```html\n" + rest, "html") == RemoveFences(rest, "html")
  {
    var s := "```html\n" + rest;
    assert s[..7] == Fence + "html";
    assert s[7] == '\n';
    assert s[8..] == rest;
  }

  /** A closing fence alone is not a ```` ```html ```` fence. */
  lemma BareFenceKeptByHtmlPass()
    ensures RemoveFences(Fence, "html") == Fence
  {
    assert !OccursAt(Fence, Fence + "html", 0);
    assert !OccursAt("``", Fence + "html", 0);
    assert !OccursAt("`", Fence + "html", 0);
    assert Fence[1..] == "``" && "``"[1..] == "`" && "`"[1..] == "";
  }

  /** A closing fence alone is removed by the bare-fence pass. */
  lemma BareFenceRemoved()
    ensures RemoveFences(Fence, "") == ""
  {
    assert Fence + "" == Fence;
    assert OccursAt(Fence, Fence + "", 0);
    assert Fence[3..] == "";
  }

  // ----- The edit-element HTML check -----

  /** `code.includes("<!DOCTYPE") || code.includes("<html")`, case-sensitive. */
  predicate LooksLikeHtml(code: string)
  {
    Contains(code, "<!DOCTYPE") || Contains(code, "<html")
  }
}
