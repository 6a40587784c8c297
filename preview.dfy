/**
 * `getLivePreviewFrame`: the generated React code is made self-contained (an
 * anonymous default export gets the name `App`, the `export default` goes, and
 * `import` lines are commented out) and spliced into a fixed HTML page that loads
 * React and Babel from a CDN and renders `Page`, `App` or `GeneratedComponent`.
 */
module PreviewFrame {
  import opened Wrappers
  import opened Strings

  const ExportDefault := "export default function"
  const NamedExport := "export default function App("
  const PlainFunction := "function"
  const ImportKeyword := "import "
  const CommentMark := "// "

  /** The template text before the injected code. */
  const FramePrefix: string :=
    "\n"
    + "<!DOCTYPE html>\n"
    + "<html lang=\"en\">\n"
    + "<head>\n"
    + "  <meta charset=\"UTF-8\">\n"
    + "  <meta name=\"viewport\" content=\"width=device-width, initial-scale=1.0\">\n"
    + "  <script src=\"https://cdn.tailwindcss.com\"></script>\n"
    + "  <style>\n"
    + "    body { margin: 0; padding: 0; }\n"
    + "    /* Simple spinner for iframe loading state if needed */\n"
    + "    .loading { display: flex; justify-content: center; align-items: center; height: 100vh; font-family: sans-serif; color: #666; }\n"
    + "  </style>\n"
    + "</head>\n"
    + "<body>\n"
    + "  <div id=\"root\"></div>\n"
    + "\n"
    + "  <script src=\"https://unpkg.com/react@18/umd/react.development.js\" crossorigin></script>\n"
    + "  <script src=\"https://unpkg.com/react-dom@18/umd/react-dom.development.js\" crossorigin></script>\n"
    + "  <script src=\"https://unpkg.com/@babel/standalone/babel.min.js\"></script>\n"
    + "\n"
    + "  <script type=\"text/babel\" data-presets=\"react\">\n"
    + "    // We need to ensure React is available globally for JSX to work\n"
    + "    window.React = React;\n"
    + "\n"
    + "    // --- A basic error boundary to catch runtime errors in the user's code ---\n"
    + "    class ErrorBoundary extends React.Component {\n"
    + "      constructor(props) {\n"
    + "        super(props);\n"
    + "        this.state = { hasError: false, error: null };\n"
    + "      }\n"
    + "      static getDerivedStateFromError(error) {\n"
    + "        return { hasError: true, error };\n"
    + "      }\n"
    + "      render() {\n"
    + "        if (this.state.hasError) {\n"
    + "          return (\n"
    + "            <div style={{ padding: 20, color: 'red', fontFamily: 'monospace' }}>\n"
    + "              <h3>Preview Error:</h3>\n"
    + "              <pre>{this.state.error?.message}</pre>\n"
    + "            </div>\n"
    + "          );\n"
    + "        }\n"
    + "        return this.props.children;\n"
    + "      }\n"
    + "    }\n"
    + "\n"
    + "    try {\n"
    + "      // --- INJECTED USER CODE STARTS HERE ---\n"
    + "      "

  /** The template text after the injected code. */
  const FrameSuffix: string :=
    "\n"
    + "      // --- INJECTED USER CODE ENDS HERE ---\n"
    + "\n"
    + "      // Attempt to find the main component to render\n"
    + "      let MainComponent = null;\n"
    + "      if (typeof Page !== 'undefined') MainComponent = Page;\n"
    + "      else if (typeof App !== 'undefined') MainComponent = App;\n"
    + "      else if (typeof GeneratedComponent !== 'undefined') MainComponent = GeneratedComponent;\n"
    + "      // Fallback: try to find the *last* function defined if standard names fail\n"
    + "      // (This is a rough hack if you want to get fancier later)\n"
    + "\n"
    + "      const root = ReactDOM.createRoot(document.getElementById('root'));\n"
    + "      if (MainComponent) {\n"
    + "        root.render(\n"
    + "          <ErrorBoundary>\n"
    + "            <MainComponent />\n"
    + "          </ErrorBoundary>\n"
    + "        );\n"
    + "      } else {\n"
    + "        // If no component is found, show a helpful message in the preview\n"
    + "        document.getElementById('root').innerHTML = `\n"
    + "          <div style=\"padding: 20px; font-family: sans-serif; color: #ef4444;\">\n"
    + "            <strong>Render Error:</strong> Could not find a component named 'App', 'Page', or 'GeneratedComponent'.\n"
    + "            <br/><br/>\n"
    + "            Did the AI generate a valid React component function?\n"
    + "          </div>\n"
    + "        `;\n"
    + "      }\n"
    + "    } catch (err) {\n"
    + "      // Catches syntax errors in the injected code before React even runs\n"
    + "      document.getElementById('root').innerHTML = `\n"
    + "        <div style=\"padding: 20px; color: #ef4444; font-family: monospace;\">\n"
    + "          <strong>Syntax Error:</strong> ${err.message}\n"
    + "        </div>\n"
    + "      `;\n"
    + "      console.error(\"Preview Runtime Error:\", err);\n"
    + "    }\n"
    + "  </script>\n"
    + "</body>\n"
    + "</html>\n"
    + "  "

  // ----- First rewrite: `/export default function\s*\(/` -----

  /** The index just past the run of white space that starts at `i`. */
  function SkipSpace(s: string, i: nat): (j: nat)
    requires i <= |s|
    ensures i <= j <= |s|
    ensures AllWhitespace(s[i..j])
    ensures j == |s| || !IsWhitespace(s[j])
    decreases |s| - i
  {
    if i < |s| && IsWhitespace(s[i]) then
      var j := SkipSpace(s, i + 1);
      assert s[i..j] == [s[i]] + s[i + 1..j];
      j
    else i
  }

  /** The pattern matches at `p`: the literal, optional white space, then `(`. */
  predicate AnonExportAt(s: string, p: nat)
  {
    && OccursAt(s, ExportDefault, p)
    && SkipSpace(s, p + |ExportDefault|) < |s|
    && s[SkipSpace(s, p + |ExportDefault|)] == '('
  }

  /** Where the regex first matches, searching from `from` on. */
  function FindAnonExport(s: string, from: nat): (r: Option<nat>)
    ensures r.Some? ==> from <= r.value && AnonExportAt(s, r.value)
    ensures r.Some? ==> forall p :: from <= p < r.value ==> !AnonExportAt(s, p)
    ensures r.None? ==> forall p :: from <= p ==> !AnonExportAt(s, p)
    decreases |s| - from
  {
    if from + |ExportDefault| > |s| then None
    else if AnonExportAt(s, from) then Some(from)
    else FindAnonExport(s, from + 1)
  }

  /** `reactCode.replace(/export default function\s*\(/, 'export default function App(')`. */
  function NameAnonymousExport(s: string): string
  {
    match FindAnonExport(s, 0)
    case None => s
    case Some(p) => s[..p] + NamedExport + s[SkipSpace(s, p + |ExportDefault|) + 1..]
  }

  // ----- Third rewrite: `/^(import .*)/gm` replaced by `// $1` -----

  predicate StartsWithImport(s: string)
  {
    |s| >= |ImportKeyword| && s[..|ImportKeyword|] == ImportKeyword
  }

  /**
   * `// ` inserted in front of every line that begins with `import `; a line
   * begins at the start and after each of the four line terminators.
   */
  function CommentImports(s: string, atLineStart: bool): string
  {
    if s == [] then []
    else if atLineStart && StartsWithImport(s) then CommentMark + [s[0]] + CommentImports(s[1..], false)
    else [s[0]] + CommentImports(s[1..], IsLineTerminator(s[0]))
  }

  /** The same rewrite on one line. */
  function CommentLine(line: string): string
  {
    if StartsWithImport(line) then CommentMark + line else line
  }

  predicate NoLineTerminator(s: string)
  {
    forall k :: 0 <= k < |s| ==> !IsLineTerminator(s[k])
  }

  /** The two `export default` rewrites, in order. */
  function ExportRewrites(reactCode: string): string
  {
    ReplaceFirst(NameAnonymousExport(reactCode), ExportDefault, PlainFunction)
  }

  /** The rewritten code that is spliced into the page. */
  function SafeCode(reactCode: string): string
  {
    CommentImports(ExportRewrites(reactCode), true)
  }

  /** A page with one hole for the code. */
  datatype PageTemplate = PageTemplate(prefix: string, suffix: string)

  /** The page `getLivePreviewFrame` returns, around `${safeCode}`. */
  const Page := PageTemplate(FramePrefix, FrameSuffix)

  /** The template literal with the code in its hole: the code between the fixed text. */
  function Fill(t: PageTemplate, code: string): (page: string)
    ensures |page| == |t.prefix| + |code| + |t.suffix|
    ensures page[..|t.prefix|] == t.prefix
    ensures page[|t.prefix|..|t.prefix| + |code|] == code
    ensures page[|t.prefix| + |code|..] == t.suffix
  {
    t.prefix + code + t.suffix
  }

  /** `getLivePreviewFrame(reactCode)`. */
  function LivePreviewFrame(reactCode: string): string
  {
    Fill(Page, SafeCode(reactCode))
  }

  // ----- Properties -----

  /** Different code gives different pages: the code can be read back off the page. */
  lemma FillInjective(t: PageTemplate, a: string, b: string)
    requires Fill(t, a) == Fill(t, b)
    ensures a == b
  {
    var n := |t.prefix|;
    assert a == Fill(t, a)[n..n + |a|];
  }

  /** Inside a line the rest of the line is copied as it is. */
  lemma {:induction false} CopyInsideLine(line: string, rest: string)
    requires NoLineTerminator(line)
    ensures CommentImports(line + rest, false) == line + CommentImports(rest, false)
    decreases |line|
  {
    if line != [] {
      var s := line + rest;
      assert !IsLineTerminator(s[0]);
      assert s[1..] == line[1..] + rest;
      CopyInsideLine(line[1..], rest);
      calc {
        CommentImports(s, false);
        [s[0]] + CommentImports(s[1..], false);
        [line[0]] + (line[1..] + CommentImports(rest, false));
        { assert line == [line[0]] + line[1..]; }
        line + CommentImports(rest, false);
      }
    } else {
      assert line + rest == rest;
    }
  }

  /** One line followed by a line break (or by nothing): the line is rewritten on its own. */
  lemma CommentOneLine(line: string, rest: string)
    requires NoLineTerminator(line)
    requires rest == [] || IsLineTerminator(rest[0])
    ensures CommentImports(line + rest, true) == CommentLine(line) + CommentImports(rest, line == [])
  {
    var s := line + rest;
    if line == [] {
      assert s == rest;
    } else {
      ImportPrefixOfLine(line, rest);
      assert !IsLineTerminator(s[0]);
      assert s[1..] == line[1..] + rest;
      CopyInsideLine(line[1..], rest);
      assert line == [line[0]] + line[1..];
    }
  }

  /** A line followed by a line break (or by nothing) begins with `import ` exactly when the line alone does. */
  lemma ImportPrefixOfLine(line: string, rest: string)
    requires line != [] && NoLineTerminator(line)
    requires rest == [] || IsLineTerminator(rest[0])
    ensures StartsWithImport(line + rest) == StartsWithImport(line)
  {
    var s := line + rest;
    if |line| >= |ImportKeyword| {
      assert s[..|ImportKeyword|] == line[..|ImportKeyword|];
    } else if rest != [] {
      assert s[|line|] == rest[0];
      assert !IsLineTerminator(ImportKeyword[|line|]);
    }
  }

  /** `CommentLine` applied to every line. */
  function CommentEachLine(lines: seq<string>): (r: seq<string>)
    ensures |r| == |lines|
  {
    seq(|lines|, k requires 0 <= k < |lines| => CommentLine(lines[k]))
  }

  /** On lines joined by `\n`, the regex rewrites each line by itself. */
  lemma {:induction false} CommentLines(lines: seq<string>)
    requires |lines| >= 1
    requires forall k :: 0 <= k < |lines| ==> NoLineTerminator(lines[k])
    ensures CommentImports(Join(lines, "\n"), true) == Join(CommentEachLine(lines), "\n")
    decreases |lines|
  {
    if |lines| == 1 {
      assert lines[0] + [] == lines[0];
      CommentOneLine(lines[0], []);
    } else {
      var tail := Join(lines[1..], "\n");
      assert Join(lines, "\n") == lines[0] + ("\n" + tail);
      CommentOneLine(lines[0], "\n" + tail);
      assert ("\n" + tail)[1..] == tail;
      CommentLines(lines[1..]);
      assert CommentEachLine(lines)[1..] == CommentEachLine(lines[1..]);
    }
  }

  /**
   * For code whose only line terminator is `\n`: every line that begins with
   * `import ` gets `// ` in front, and every other line stays as it is.
   */
  lemma CommentImportsByLine(code: string)
    requires '\r' !in code && '\U{2028}' !in code && '\U{2029}' !in code
    ensures CommentImports(code, true) == Join(CommentEachLine(Split(code, '\n')), "\n")
  {
    var lines := Split(code, '\n');
    JoinSplit(code, '\n');
    forall k | 0 <= k < |lines|
      ensures NoLineTerminator(lines[k])
    {
      SplitPieceChars(code, '\n', k);
    }
    CommentLines(lines);
  }

  /**
   * A line of `s` begins at `i` with `import `: `i` is the start (when `s`
   * itself starts a line) or follows one of the four line terminators.
   */
  predicate ImportLineAt(s: string, atLineStart: bool, i: nat)
  {
    && i < |s|
    && (if i == 0 then atLineStart else IsLineTerminator(s[i - 1]))
    && StartsWithImport(s[i..])
  }

  /** With no line that begins with `import `, the third rewrite changes nothing. */
  lemma {:induction false} NoImportLineUnchanged(s: string, atLineStart: bool)
    requires forall i: nat :: !ImportLineAt(s, atLineStart, i)
    ensures CommentImports(s, atLineStart) == s
    decreases |s|
  {
    if s != [] {
      assert !ImportLineAt(s, atLineStart, 0);
      var t := s[1..];
      var b := IsLineTerminator(s[0]);
      forall i: nat
        ensures !ImportLineAt(t, b, i)
      {
        assert !ImportLineAt(s, atLineStart, i + 1);
        if i < |t| {
          assert t[i..] == s[i + 1..];
          if i > 0 {
            assert t[i - 1] == s[i];
          }
        }
      }
      NoImportLineUnchanged(t, b);
      assert s == [s[0]] + t;
    }
  }

  /**
   * Code with no `export default function` and no line, whatever its line
   * terminators, that begins with `import ` is spliced in unchanged.
   */
  lemma UntouchedCode(code: string)
    requires IndexOf(code, ExportDefault).None?
    requires forall i: nat :: !ImportLineAt(code, true, i)
    ensures SafeCode(code) == code
  {
    assert FindAnonExport(code, 0).None?;
    NoImportLineUnchanged(code, true);
  }

  /** From `i`, the white space `ws` is skipped up to the non-blank character after it. */
  lemma {:induction false} SkipSpaceOver(s: string, i: nat, ws: string)
    requires i + |ws| < |s| && s[i..i + |ws|] == ws
    requires AllWhitespace(ws) && !IsWhitespace(s[i + |ws|])
    ensures SkipSpace(s, i) == i + |ws|
    decreases |ws|
  {
    if ws != [] {
      assert s[i] == ws[0];
      assert s[i + 1..i + 1 + |ws[1..]|] == ws[1..];
      SkipSpaceOver(s, i + 1, ws[1..]);
    }
  }

  /**
   * An anonymous default-exported component (`export default function (` with
   * any white space before the parenthesis), when it is the first
   * `export default function` in the code, becomes the plain declaration
   * `function App(`; the code after it, later exports included, is left alone.
   */
  lemma AnonymousExportBecomesApp(pre: string, ws: string, post: string)
    requires AllWhitespace(ws)
    requires IndexOf(pre + ExportDefault + ws + "(" + post, ExportDefault) == Some(|pre|)
    ensures ExportRewrites(pre + ExportDefault + ws + "(" + post) == pre + "function App(" + post
  {
    var rest0 := ws + "(" + post;
    assert pre + ExportDefault + ws + "(" + post == pre + ExportDefault + rest0;
    NoEarlierExport(pre, rest0);
    forall j | 0 <= j < |pre|
      ensures !AnonExportAt(pre + ExportDefault + ws + "(" + post, j)
    {
    }
    FirstRewriteNames(pre, ws, post);
    SecondRewriteStrips(pre, post);
  }

  /** The second rewrite then turns the named export into a plain declaration. */
  lemma SecondRewriteStrips(pre: string, post: string)
    requires forall j: nat :: j < |pre| ==> !OccursAt(pre + ExportDefault, ExportDefault, j)
    ensures ReplaceFirst(pre + NamedExport + post, ExportDefault, PlainFunction) == pre + "function App(" + post
  {
    NamedExportSpelling();
    Splice(pre, ExportDefault, " App(", post, PlainFunction);
    ReplaceFirstAt(pre, ExportDefault, " App(" + post, PlainFunction);
  }

  /** Regrouping a replacement spliced between `pre` and `post`. */
  lemma Splice(pre: string, pat: string, tail: string, post: string, rep: string)
    ensures pre + (pat + tail) + post == pre + pat + (tail + post)
    ensures pre + rep + (tail + post) == pre + (rep + tail) + post
  {
    assert pre + (pat + tail) + post == pre + pat + (tail + post);
    assert pre + rep + (tail + post) == pre + (rep + tail) + post;
  }

  /** The first `export default function` of the whole code is also the first of its beginning. */
  lemma NoEarlierExport(pre: string, rest: string)
    requires IndexOf(pre + ExportDefault + rest, ExportDefault) == Some(|pre|)
    ensures forall j: nat :: j < |pre| ==> !OccursAt(pre + ExportDefault, ExportDefault, j)
  {
    var s := pre + ExportDefault + rest;
    var n := |pre| + |ExportDefault|;
    assert s[..n] == pre + ExportDefault;
    forall j: nat | j < |pre|
      ensures !OccursAt(pre + ExportDefault, ExportDefault, j)
    {
      OccursAtPrefix(s, pre + ExportDefault, n, ExportDefault, j);
    }
  }

  /** The name the first rewrite gives is `export default function` followed by ` App(`. */
  lemma NamedExportSpelling()
    ensures NamedExport == ExportDefault + " App("
    ensures PlainFunction + " App(" == "function App("
  {
  }

  /**
   * The first rewrite names the first anonymous export `App`, whatever named
   * exports or other mentions of `export default function` come before it.
   */
  lemma FirstRewriteNames(pre: string, ws: string, post: string)
    requires AllWhitespace(ws)
    requires forall j :: 0 <= j < |pre| ==> !AnonExportAt(pre + ExportDefault + ws + "(" + post, j)
    ensures NameAnonymousExport(pre + ExportDefault + ws + "(" + post) == pre + NamedExport + post
  {
    var s := pre + ExportDefault + ws + "(" + post;
    var e := |pre| + |ExportDefault|;
    assert s[e..e + |ws|] == ws;
    assert s[e + |ws|] == '(';
    SkipSpaceOver(s, e, ws);
    assert s[|pre|..e] == ExportDefault;
    assert AnonExportAt(s, |pre|);
    assert FindAnonExport(s, 0) == Some(|pre|);
    assert s[e + |ws| + 1..] == post;
    assert s[..|pre|] == pre;
  }

  /**
   * A named default export (no anonymous one anywhere) keeps its name and loses
   * its first `export default`.
   */
  lemma NamedExportLosesExport(pre: string, post: string)
    requires IndexOf(pre + ExportDefault + post, ExportDefault) == Some(|pre|)
    requires FindAnonExport(pre + ExportDefault + post, 0).None?
    ensures ExportRewrites(pre + ExportDefault + post) == pre + PlainFunction + post
  {
    var s := pre + ExportDefault + post;
    assert s[..|pre|] == pre;
    assert s[|pre| + |ExportDefault|..] == post;
  }
}
