/** The C snippets c-abi-lens emits and their rendering as text: includes,
functions (comment, signature, body) and section banners. A panic of the
Rust code is the value None. */
module Tokens {
  import opened Wrappers
  import opened Ints
  import opened Text
  import opened CTypes

  /** An include of a header by `<...>` or by `"..."`. */
  datatype CInclude = System(header: string) | Library(header: string)

  /** `CInclude::generate`. The library form is written as a raw string,
      in which `\n` is a backslash and an `n`: that line gets no line feed. */
  function IncludeText(inc: CInclude): (r: string)
    ensures inc.System? ==> r == "#include<" + inc.header + ">\n"
    ensures inc.Library? ==> r == "#include\"" + inc.header + "\"\\n"
  {
    match inc
    case System(h) => "#include<" + h + ">\n"
    case Library(h) => "#include\"" + h + "\"\\n"
  }

  /** The include line names the header and tells the two kinds apart, so
      different includes never render alike. */
  lemma IncludeTextIsInjective(a: CInclude, b: CInclude)
    requires IncludeText(a) == IncludeText(b)
    ensures a == b
  {
    var r := IncludeText(a);
    assert r[8] == if a.System? then '<' else '"';
    assert r[8] == if b.System? then '<' else '"';
    if a.System? {
      assert a.header == r[9..|r| - 2] == b.header;
    } else {
      assert a.header == r[9..|r| - 3] == b.header;
    }
  }

  /** As written, a library include ends in a backslash and an `n` and
      contains no line feed, so whatever is emitted next continues its line. */
  lemma LibraryIncludeHasNoLineFeed(h: string)
    requires '\n' !in h
    ensures var r := IncludeText(Library(h));
            '\n' !in r && |r| >= 2 && r[|r| - 2..] == "\\n"
  {
    var r := IncludeText(Library(h));
    Framed("#include\"", h, "\"\\n");
    assert forall i :: 0 <= i < |r| ==> r[i] != '\n' by {
      forall i | 0 <= i < |r| ensures r[i] != '\n' {
        if 9 <= i < 9 + |h| {
          assert r[i] == h[i - 9];
        }
      }
    }
  }

  /** `CInclude::generate` with a line feed after the library form, as the
      system form has. */
  function IncludeTextFixed(inc: CInclude): (r: string)
    ensures inc.System? ==> r == IncludeText(inc)
    ensures inc.Library? ==> r == "#include\"" + inc.header + "\"\n"
  {
    match inc
    case System(h) => IncludeText(inc)
    case Library(h) => "#include\"" + h + "\"\n"
  }

  /** With the correction every include is exactly one line: a header
      without line feeds renders as text whose only line feed is its last
      character. */
  lemma IncludeTextFixedIsOneLine(inc: CInclude)
    requires '\n' !in inc.header
    ensures var r := IncludeTextFixed(inc);
            |r| >= 1 && r[|r| - 1] == '\n' && '\n' !in r[..|r| - 1]
  {
    var r := IncludeTextFixed(inc);
    var h := inc.header;
    if inc.System? {
      Framed("#include<", h, ">\n");
    } else {
      Framed("#include\"", h, "\"\n");
    }
    assert forall i :: 0 <= i < |r| - 1 ==> r[i] != '\n' by {
      forall i | 0 <= i < |r| - 1 ensures r[i] != '\n' {
        if 9 <= i < 9 + |h| {
          assert r[i] == h[i - 9];
        }
      }
    }
  }

  /** A C function: its doc comment, return type, name, typed and named
      arguments, and body text. */
  datatype CFunc = CFunc(
    comment: string,
    returnType: RepresentableCType,
    name: string,
    arguments: seq<(RepresentableCType, string)>,
    body: string)

  /** `format_func_prefix`: a prefix followed by a space, or nothing. */
  function FuncPrefix(prefix: Option<string>): (r: string)
    ensures prefix.None? ==> r == ""
    ensures prefix.Some? ==> |r| == |prefix.value| + 1 && r[..|prefix.value|] == prefix.value && r[|prefix.value|] == ' '
  {
    if prefix.Some? then prefix.value + " " else ""
  }

  /** One line of a doc comment: a space and the line unless it is empty,
      then a line feed and the ` *` that starts the next comment line. */
  function CommentLine(line: string): string
  {
    (if line == "" then "" else " " + line) + "\n *"
  }

  function CommentLines(ls: seq<string>): string
  {
    if ls == [] then "" else CommentLine(ls[0]) + CommentLines(ls[1..])
  }

  /** `format_comment`: an opening slash and star, the comment's lines,
      each followed by a new ` *` line, and a final slash that turns the last
      ` *` into the closing star and slash. */
  function FormatComment(comment: string): (r: string)
    ensures |r| >= 4 && r[..2] == "/*" && r[|r| - 2..] == "/\n"
    ensures comment != [] ==> |r| >= 5 && r[|r| - 5..] == "\n */\n"
  {
    var ls := Lines(comment);
    var inner := CommentLines(ls);
    if ls == [] then "/*" + inner + "/\n"
    else
      CommentLinesEndWithStar(ls);
      "/*" + inner + "/\n"
  }

  lemma {:induction false} CommentLinesEndWithStar(ls: seq<string>)
    requires ls != []
    ensures var c := CommentLines(ls); |c| >= 3 && c[|c| - 3..] == "\n *"
  {
    if |ls| > 1 {
      CommentLinesEndWithStar(ls[1..]);
    } else {
      assert CommentLines(ls) == CommentLine(ls[0]) + CommentLines([]);
    }
  }

  /** An empty comment renders as slash, star, slash: that opens a C
      comment and does not close it. */
  lemma EmptyCommentIsUnterminated()
    ensures FormatComment("") == "/*/\n"
  {
    assert CommentLines([]) == "";
  }

  /** The comment layout the emitter produces: a title line, an empty line
      and a description line. */
  lemma FormatCommentExample()
    ensures FormatComment("a\n\nb") == "/* a\n *\n * b\n */\n"
  {
    LinesOfExample();
    CommentLinesOfExample();
    FormatCommentWraps("a\n\nb");
    var inner := " a\n *\n * b\n *";
    assert "/*" + inner + "/\n" == "/* a\n *\n * b\n */\n";
  }

  lemma FormatCommentWraps(comment: string)
    ensures FormatComment(comment) == "/*" + CommentLines(Lines(comment)) + "/\n"
  {
  }

  lemma CommentLinesOfExample()
    ensures CommentLines(["a", "", "b"]) == " a\n *\n * b\n *"
  {
    var ls := ["a", "", "b"];
    assert CommentLines(ls[2..]) == " b\n *" by {
      assert CommentLines(ls[2..]) == CommentLine("b") + CommentLines([]);
    }
    assert CommentLines(ls[1..]) == "\n * b\n *" by {
      assert CommentLines(ls[1..]) == CommentLine("") + CommentLines(ls[2..]);
    }
    assert CommentLines(ls) == CommentLine("a") + CommentLines(ls[1..]);
  }

  lemma LinesOfExample()
    ensures Lines("a\n\nb") == ["a", "", "b"]
  {
    var c := "a\n\nb";
    assert Lines("b") == ["b"] by {
      assert FirstNewline("b") == 1 + FirstNewline([]);
    }
    assert Lines("\nb") == [""] + Lines("b") by {
      assert FirstNewline("\nb") == 0;
      assert "\nb"[1..] == "b";
    }
    assert FirstNewline(c) == 1 by {
      assert c[1..] == "\n\nb";
    }
    assert c[..1] == "a" && c[2..] == "\nb";
  }

  /** A body line: a tab before it unless it is empty. */
  function IndentLine(line: string): string
  {
    if line == "" then "" else "\t" + line
  }

  function IndentAll(ls: seq<string>): (r: seq<string>)
    ensures |r| == |ls| && forall i :: 0 <= i < |ls| ==> r[i] == IndentLine(ls[i])
  {
    if ls == [] then [] else [IndentLine(ls[0])] + IndentAll(ls[1..])
  }

  /** `format_body`: every line indented and followed by a line feed, then
      the final line feed removed. A body without lines leaves nothing to
      remove, and `String::remove` panics. */
  function FormatBody(body: string): (r: Option<string>)
    ensures r.None? <==> body == []
    ensures r.Some? ==> r.value == Join(IndentAll(Lines(body)), "\n")
  {
    var text := Terminated(IndentAll(Lines(body)));
    if text == [] then None
    else
      JoinLinesThenTerminate(IndentAll(Lines(body)));
      Some(text[..|text| - 1])
  }

  /** The rendered body of a one-line function. */
  lemma FormatBodyOneLine(line: string)
    requires line != [] && '\n' !in line
    ensures FormatBody(line) == Some("\t" + line)
  {
    assert FirstNewline(line) == |line|;
    assert Lines(line) == [line];
    assert IndentAll([line]) == [IndentLine(line)];
  }

  /** The rendered arguments, or None when one of their types panics. */
  function ArgTexts(args: seq<(RepresentableCType, string)>): (r: Option<seq<string>>)
    ensures r.Some? <==> forall i :: 0 <= i < |args| ==> Renderable(args[i].0)
    ensures r.Some? ==> |r.value| == |args|
                        && forall i :: 0 <= i < |args| ==> r.value[i] == FormatAsType(args[i].0, Some(args[i].1)).value
  {
    if args == [] then Some([])
    else
      var first := FormatAsType(args[0].0, Some(args[0].1));
      var rest := ArgTexts(args[1..]);
      RenderableSplit(args);
      if first.None? || rest.None? then None
      else Some([first.value] + rest.value)
  }

  lemma RenderableSplit(args: seq<(RepresentableCType, string)>)
    requires args != []
    ensures (forall i :: 0 <= i < |args| ==> Renderable(args[i].0))
            <==> Renderable(args[0].0) && forall i :: 0 <= i < |args[1..]| ==> Renderable(args[1..][i].0)
  {
    if Renderable(args[0].0) && forall i :: 0 <= i < |args[1..]| ==> Renderable(args[1..][i].0) {
      forall i | 1 <= i < |args| ensures Renderable(args[i].0) {
        assert args[i] == args[1..][i - 1];
      }
    }
  }

  /** `format_args`: the typed, named arguments separated by `, `, or
      `void` for a function without arguments. */
  function FormatArgs(args: seq<(RepresentableCType, string)>): (r: Option<string>)
    ensures args == [] ==> r == Some("void")
    ensures r.Some? <==> ArgTexts(args).Some?
    ensures args != [] && r.Some? ==> r.value == Join(ArgTexts(args).value, ", ")
  {
    var texts :- ArgTexts(args);
    if texts == [] then Some("void") else Some(Join(texts, ", "))
  }

  /** `CFunc::generate`: optional comment, optional prefix, return type,
      name and arguments, then either the body in braces or `;` for a
      prototype. */
  function Generate(f: CFunc, emitComment: bool, emitBody: bool, prefix: Option<string>): (r: Option<string>)
    ensures r.Some? <==> Display(f.returnType).Some? && FormatArgs(f.arguments).Some?
                         && (emitBody ==> f.body != [])
    ensures r.Some? ==> r.value == (if emitComment then FormatComment(f.comment) else "")
                                   + FuncPrefix(prefix) + Display(f.returnType).value + " " + f.name
                                   + "(" + FormatArgs(f.arguments).value + ")"
                                   + (if emitBody then "{\n" + FormatBody(f.body).value + "\n}" else ";\n")
  {
    var comment := if emitComment then FormatComment(f.comment) else "";
    var args :- FormatArgs(f.arguments);
    var body :- if emitBody then
                  var b :- FormatBody(f.body);
                  Some("{\n" + b + "\n}")
                else Some(";\n");
    var returnType :- Display(f.returnType);
    Some(comment + FuncPrefix(prefix) + returnType + " " + f.name + "(" + args + ")" + body)
  }

  /** A prototype and a definition of the same function share everything
      up to the closing parenthesis: the prototype ends in `;` where the
      definition opens its body. */
  lemma PrototypeMatchesDefinition(f: CFunc, emitComment: bool, prefix: Option<string>)
    requires f.body != []
    requires Generate(f, emitComment, true, prefix).Some?
    ensures Generate(f, emitComment, false, prefix).Some?
    ensures var decl := Generate(f, emitComment, false, prefix).value;
            var def := Generate(f, emitComment, true, prefix).value;
            var signature := decl[..|decl| - 2];
            && decl == signature + ";\n"
            && def == signature + "{\n" + FormatBody(f.body).value + "\n}"
  {
    var comment := if emitComment then FormatComment(f.comment) else "";
    var args := FormatArgs(f.arguments).value;
    var returnType := Display(f.returnType).value;
    var body := FormatBody(f.body).value;
    var signature := comment + FuncPrefix(prefix) + returnType + " " + f.name + "(" + args + ")";
    assert Generate(f, emitComment, false, prefix) == Some(signature + ";\n");
    assert Generate(f, emitComment, true, prefix) == Some(signature + ("{\n" + body + "\n}"));
    AppendThree(signature, "{\n", body, "\n}");
    assert (signature + ";\n")[..|signature + ";\n"| - 2] == signature;
  }

  /** Asking for the comment only puts the formatted comment in front: the
      rest of the text is the one rendered without it, and both fail alike. */
  lemma CommentIsPrepended(f: CFunc, emitBody: bool, prefix: Option<string>)
    ensures Generate(f, true, emitBody, prefix).Some? == Generate(f, false, emitBody, prefix).Some?
    ensures Generate(f, true, emitBody, prefix).Some? ==>
              Generate(f, true, emitBody, prefix).value
              == FormatComment(f.comment) + Generate(f, false, emitBody, prefix).value
  {
    var g1 := Generate(f, true, emitBody, prefix);
    var g0 := Generate(f, false, emitBody, prefix);
    if g1.Some? {
      var x4 := if emitBody then "{\n" + FormatBody(f.body).value + "\n}" else ";\n";
      Prepended(g1.value, g0.value, FormatComment(f.comment), FuncPrefix(prefix), Display(f.returnType).value,
                " ", f.name, "(", FormatArgs(f.arguments).value, ")", x4);
    }
  }

  /** Text made of a head and eight parts is the head followed by the text
      made of the eight parts alone. */
  lemma Prepended<T>(g1: seq<T>, g0: seq<T>, c: seq<T>, x1: seq<T>, x2: seq<T>, x3: seq<T>, x4: seq<T>,
                     x5: seq<T>, x6: seq<T>, x7: seq<T>, x8: seq<T>)
    requires g1 == c + x1 + x2 + x3 + x4 + x5 + x6 + x7 + x8
    requires g0 == [] + x1 + x2 + x3 + x4 + x5 + x6 + x7 + x8
    ensures g1 == c + g0
  {
    assert [] + x1 == x1;
  }

  lemma AppendThree<T>(s: seq<T>, a: seq<T>, b: seq<T>, c: seq<T>)
    ensures s + (a + b + c) == s + a + b + c
  {
  }

  /** A section banner: a title, and an optional comment below it. */
  datatype CSection = CSection(title: string, comment: string)

  /** One comment line below a section banner. */
  function SectionLine(line: string): string
  {
    "* " + line + "\n "
  }

  function SectionLines(ls: seq<string>): string
  {
    if ls == [] then "" else SectionLine(ls[0]) + SectionLines(ls[1..])
  }

  /** `CSection::generate`: the title centred between comment delimiters in
      `width` columns, padded with `*`; a comment follows as a block whose
      lines start with ` * `. `width - 4` underflows below 4, which is a
      panic. */
  function SectionText(s: CSection, width: U16): (r: Option<string>)
    ensures r.None? <==> width < 4
    ensures r.Some? && s.comment == [] ==> r.value == "/*" + Centre(s.title, width - 4, '*') + "*/\n"
    ensures r.Some? && s.comment != [] ==>
              r.value == "/*" + Centre(s.title, width - 4, '*') + "*/\n" + "/" + SectionLines(Lines(s.comment)) + "*/\n"
  {
    if width < 4 then None
    else
      var banner := "/*" + Centre(s.title, width - 4, '*') + "*/\n";
      if s.comment == [] then Some(banner)
      else Some(banner + "/" + SectionLines(Lines(s.comment)) + "*/\n")
  }

  /** A line `width` characters wide, then a line feed: a slash at each
      end, `title` in the middle (an odd padding putting the extra `*` on the
      right), and `*` everywhere else. */
  predicate IsBanner(b: string, title: string, width: nat)
    requires 4 <= width && |title| <= width - 4
  {
    var left := 2 + (width - 4 - |title|) / 2;
    && |b| == width + 1 && b[width] == '\n'
    && b[0] == '/' && b[width - 1] == '/'
    && b[left..left + |title|] == title
    && (forall i :: 0 < i < left ==> b[i] == '*')
    && (forall i :: left + |title| <= i < width - 1 ==> b[i] == '*')
  }

  /** A section whose title fits starts with a banner exactly `width`
      characters wide. */
  lemma SectionBannerIsWidthWide(s: CSection, width: U16)
    requires 4 <= width && |s.title| <= width - 4
    ensures var r := SectionText(s, width).value;
            |r| >= width + 1 && IsBanner(r[..width + 1], s.title, width)
  {
    var r := SectionText(s, width).value;
    var banner := "/*" + Centre(s.title, width - 4, '*') + "*/\n";
    CentredTitleIsBanner(s.title, width);
    assert r[..width + 1] == banner;
  }

  lemma CentredTitleIsBanner(title: string, width: nat)
    requires 4 <= width && |title| <= width - 4
    ensures IsBanner("/*" + Centre(title, width - 4, '*') + "*/\n", title, width)
  {
    var w := width - 4;
    var c := Centre(title, w, '*');
    if |title| < w {
      CentreIsBalanced(title, w, '*');
    } else {
      assert c == title && c[0..|title|] == title;
    }
    BannerOf(c, title, width);
  }

  /** A centred title between the delimiters makes a banner. */
  lemma BannerOf(c: string, title: string, width: nat)
    requires 4 <= width && |title| <= width - 4 && |c| == width - 4
    requires var left := (width - 4 - |title|) / 2;
             && c[left..left + |title|] == title
             && (forall i :: 0 <= i < left ==> c[i] == '*')
             && (forall i :: left + |title| <= i < |c| ==> c[i] == '*')
    ensures IsBanner("/*" + c + "*/\n", title, width)
  {
    var b := "/*" + c + "*/\n";
    var left := 2 + (width - 4 - |title|) / 2;
    BannerParts(c);
    assert b[left..left + |title|] == title by {
      forall j | 0 <= j < |title| ensures b[left + j] == title[j] {
        assert c[left - 2..left - 2 + |title|][j] == title[j];
      }
    }
  }

  /** Where the delimiters and the centred text sit in a banner line. */
  lemma BannerParts(c: string)
    ensures var b := "/*" + c + "*/\n";
            && |b| == |c| + 5 && b[0] == '/' && b[1] == '*'
            && b[|c| + 2] == '*' && b[|c| + 3] == '/' && b[|c| + 4] == '\n'
            && forall i :: 2 <= i < |c| + 2 ==> b[i] == c[i - 2]
  {
  }

  /** What a file of generated code is made of. */
  datatype CSnippet = Include(inc: CInclude) | Func(fn: CFunc) | Section(sec: CSection) | Newline
}
