/** The bytecode extraction in the qjsc adapter (main.go:150-160): the
    compiler writes C source holding the bytecode as an array literal
    `{0x.., 0x.., ...};`, and the adapter recovers the raw bytes from that
    text by splitting, deleting and parsing, exactly as written there. */
module Extraction {
  import opened Results
  import opened Bytes
  import opened Seqs
  import opened Hex

  /** What goes wrong with one array element. */
  datatype TokenProblem =
    | TooShort            // fewer than two bytes, so `byt[2:]` panics
    | NotAByte(NumError)  // ParseUint rejected the rest of the token

  datatype ExtractError =
    | MissingOpenBrace    // no `{`, so `Split(data, "{")[1]` panics
    | BadToken(index: nat, token: seq<byte>, problem: TokenProblem)

  /** The array body: the text after the first `{`, cut at the next `{` (the
      end of the second piece of the split on `{`) and then at the first `}`. */
  function Body(data: seq<byte>): Option<seq<byte>>
  {
    if OpenBrace !in data then None
    else Some(Split(Split(data, OpenBrace)[1], CloseBrace)[0])
  }

  /** Every space and every newline deleted; tabs and carriage returns stay. */
  function Clean(body: seq<byte>): seq<byte>
  {
    Remove(Remove(body, Space), Newline)
  }

  /** The comma-separated pieces of the cleaned body without the last one,
      which the generator's trailing comma leaves empty. */
  function Tokens(cleaned: seq<byte>): seq<seq<byte>>
  {
    var parts := Split(cleaned, Comma);
    parts[..|parts| - 1]
  }

  /** A token that yields a byte: two bytes of any kind, then one or more
      base-16 digits whose value fits in a byte. */
  predicate ByteToken(t: seq<byte>)
  {
    |t| > 2 && AllHex(t[2..]) && Value(t[2..]) <= 255
  }

  /** The loop over the tokens from index `i` on, stopping at the first token
      that is too short or does not parse. */
  function ParseTokens(ts: seq<seq<byte>>, i: nat): (r: Result<seq<byte>, ExtractError>)
    requires i <= |ts|
    ensures r.Success? <==> forall j :: i <= j < |ts| ==> ByteToken(ts[j])
    ensures r.Success? ==>
      && |r.value| == |ts| - i
      && forall j :: i <= j < |ts| ==> r.value[j - i] as int == Value(ts[j][2..])
    ensures r.Failure? ==>
      && r.error.BadToken?
      && i <= r.error.index < |ts|
      && r.error.token == ts[r.error.index]
      && !ByteToken(ts[r.error.index])
      && forall j :: i <= j < r.error.index ==> ByteToken(ts[j])
    ensures r.Failure? ==> (r.error.problem.TooShort? <==> |ts[r.error.index]| < 2)
    decreases |ts| - i
  {
    if i == |ts| then Success([])
    else
      var t := ts[i];
      if |t| < 2 then Failure(BadToken(i, t, TooShort))
      else
        ParseUint8Spec(t[2..]);
        match ParseUint8(t[2..])
        case Failure(e) => Failure(BadToken(i, t, NotAByte(e)))
        case Success(b) =>
          match ParseTokens(ts, i + 1)
          case Failure(e) => Failure(e)
          case Success(rest) => Success([b] + rest)
  }

  /** The tokens of the array literal in `data`. */
  function ArrayTokens(data: seq<byte>): seq<seq<byte>>
    requires OpenBrace in data
  {
    Tokens(Clean(Body(data).value))
  }

  /** main.go:150-160: the bytes recovered from the compiler's output. */
  function Extract(data: seq<byte>): (r: Result<seq<byte>, ExtractError>)
    ensures r == Failure(MissingOpenBrace) <==> OpenBrace !in data
    ensures OpenBrace in data ==>
      (r.Success? <==> forall j :: 0 <= j < |ArrayTokens(data)| ==> ByteToken(ArrayTokens(data)[j]))
    ensures r.Success? ==>
      && |r.value| == |ArrayTokens(data)|
      && forall j :: 0 <= j < |r.value| ==> r.value[j] as int == Value(ArrayTokens(data)[j][2..])
  {
    if OpenBrace !in data then Failure(MissingOpenBrace)
    else ParseTokens(ArrayTokens(data), 0)
  }

  /** The body is whatever lies between the first `{` and the next brace of
      either kind (or the end of the text). */
  lemma {:induction false} BodyOf(pre: seq<byte>, body: seq<byte>, post: seq<byte>)
    requires OpenBrace !in pre
    requires OpenBrace !in body && CloseBrace !in body
    requires post == [] || post[0] == OpenBrace || post[0] == CloseBrace
    ensures Body(pre + [OpenBrace] + body + post) == Some(body)
  {
    var data := pre + [OpenBrace] + body + post;
    assert data == pre + [OpenBrace] + (body + post);
    SplitAfter(pre, OpenBrace, body + post);
    assert Split(data, OpenBrace)[1] == Split(body + post, OpenBrace)[0];
    BodyUpToBrace(body, post);
  }

  lemma {:induction false} BodyUpToBrace(body: seq<byte>, post: seq<byte>)
    requires OpenBrace !in body && CloseBrace !in body
    requires post == [] || post[0] == OpenBrace || post[0] == CloseBrace
    ensures Split(Split(body + post, OpenBrace)[0], CloseBrace)[0] == body
  {
    if post == [] {
      assert body + post == body;
      BodyAtEnd(body);
    } else {
      var rest := post[1..];
      assert body + post == body + [post[0]] + rest;
      if post[0] == OpenBrace {
        BodyBeforeOpen(body, rest);
      } else {
        BodyBeforeClose(body, rest);
      }
    }
  }

  lemma {:induction false} BodyAtEnd(body: seq<byte>)
    requires OpenBrace !in body && CloseBrace !in body
    ensures Split(Split(body, OpenBrace)[0], CloseBrace)[0] == body
  {
    SplitWithout(body, OpenBrace);
    SplitWithout(body, CloseBrace);
  }

  lemma {:induction false} BodyBeforeOpen(body: seq<byte>, rest: seq<byte>)
    requires OpenBrace !in body && CloseBrace !in body
    ensures Split(Split(body + [OpenBrace] + rest, OpenBrace)[0], CloseBrace)[0] == body
  {
    SplitAfter(body, OpenBrace, rest);
    SplitWithout(body, CloseBrace);
  }

  lemma {:induction false} BodyBeforeClose(body: seq<byte>, rest: seq<byte>)
    requires OpenBrace !in body && CloseBrace !in body
    ensures Split(Split(body + [CloseBrace] + rest, OpenBrace)[0], CloseBrace)[0] == body
  {
    var head := body + [CloseBrace];
    assert OpenBrace !in head;
    SplitFirst(head, rest, OpenBrace);
    var tail := Split(rest, OpenBrace)[0];
    assert Split(head + rest, OpenBrace)[0] == body + [CloseBrace] + tail;
    SplitAfter(body, CloseBrace, tail);
  }

  /** Text outside the array body does not matter: whatever precedes the
      first `{` and whatever follows the body, the result is the same. */
  lemma {:induction false} ExtractOf(pre: seq<byte>, body: seq<byte>, post: seq<byte>)
    requires OpenBrace !in pre
    requires OpenBrace !in body && CloseBrace !in body
    requires post == [] || post[0] == OpenBrace || post[0] == CloseBrace
    ensures Extract(pre + [OpenBrace] + body + post) == ParseTokens(Tokens(Clean(body)), 0)
  {
    BodyOf(pre, body, post);
  }

  /** Runs of spaces and line breaks, which the generator puts between
      elements when it indents and wraps the array. */
  predicate Blank(g: seq<byte>)
  {
    forall i :: 0 <= i < |g| ==> g[i] == Space || g[i] == Newline
  }

  /** How the generator lays out one element: the blank run before it and
      the case of its hex digits. */
  datatype Layout = Layout(gap: seq<byte>, lower: bool)

  predicate Blanks(ls: seq<Layout>)
  {
    forall j :: 0 <= j < |ls| ==> Blank(ls[j].gap)
  }

  /** An array element as the generator writes it, without its comma. */
  function Literal(b: byte, lower: bool): seq<byte>
  {
    [DigitZero, LetterX] + TwoDigits(b, lower)
  }

  function Literals(bs: seq<byte>, ls: seq<Layout>): (ts: seq<seq<byte>>)
    requires |ls| == |bs|
    ensures |ts| == |bs|
    ensures forall j :: 0 <= j < |bs| ==> ts[j] == Literal(bs[j], ls[j].lower)
  {
    if |bs| == 0 then [] else [Literal(bs[0], ls[0].lower)] + Literals(bs[1..], ls[1..])
  }

  /** The array elements as the generator writes them: for each byte its
      blank run, the literal and a comma. */
  function Elements(bs: seq<byte>, ls: seq<Layout>): seq<byte>
    requires |ls| == |bs|
  {
    if |bs| == 0 then []
    else Piece(bs[0], ls[0]) + Elements(bs[1..], ls[1..])
  }

  /** One element: its gap, its literal and the comma after it. */
  function Piece(b: byte, l: Layout): seq<byte>
  {
    l.gap + (Literal(b, l.lower) + [Comma])
  }

  /** A brace-delimited array literal of `bs` laid out by `ls`, with the
      blank run `last` before the closing brace, e.g. `{0x00, 0xff,\n }`. */
  function Render(bs: seq<byte>, ls: seq<Layout>, last: seq<byte>): seq<byte>
    requires |ls| == |bs|
  {
    [OpenBrace] + Elements(bs, ls) + last + [CloseBrace]
  }

  lemma LiteralShape(b: byte, lower: bool)
    ensures OpenBrace !in Literal(b, lower) && CloseBrace !in Literal(b, lower)
    ensures Comma !in Literal(b, lower) && Space !in Literal(b, lower) && Newline !in Literal(b, lower)
    ensures ByteToken(Literal(b, lower)) && Value(Literal(b, lower)[2..]) == b as int
  {
    assert Literal(b, lower)[2..] == TwoDigits(b, lower);
    ParseTwoDigits(b, lower);
    ParseUint8Spec(TwoDigits(b, lower));
  }

  lemma {:induction false} ElementsNoBraces(bs: seq<byte>, ls: seq<Layout>)
    requires |ls| == |bs| && Blanks(ls)
    ensures OpenBrace !in Elements(bs, ls) && CloseBrace !in Elements(bs, ls)
    decreases |bs|
  {
    if |bs| > 0 {
      LiteralShape(bs[0], ls[0].lower);
      ElementsNoBraces(bs[1..], ls[1..]);
    }
  }

  /** Cleaning is done piece by piece. */
  lemma CleanAppend(a: seq<byte>, b: seq<byte>)
    ensures Clean(a + b) == Clean(a) + Clean(b)
  {
    RemoveAppend(a, b, Space);
    RemoveAppend(Remove(a, Space), Remove(b, Space), Newline);
  }

  /** A blank run cleans away entirely. */
  lemma {:induction false} CleanBlank(g: seq<byte>)
    requires Blank(g)
    ensures Clean(g) == []
    decreases |g|
  {
    if |g| > 0 {
      assert g == [g[0]] + g[1..];
      CleanAppend([g[0]], g[1..]);
      CleanBlank(g[1..]);
    }
  }

  /** Text without spaces and line breaks is left alone. */
  lemma CleanPlain(t: seq<byte>)
    requires Space !in t && Newline !in t
    ensures Clean(t) == t
  {
    RemoveAbsent(t, Space);
    RemoveAbsent(t, Newline);
  }

  /** One laid-out element: its blank run disappears and the element stays. */
  lemma CleanElement(g: seq<byte>, t: seq<byte>, rest: seq<byte>)
    requires Blank(g) && Space !in t && Newline !in t
    ensures Clean(g + (t + rest)) == t + Clean(rest)
  {
    CleanAppend(g, t + rest);
    CleanBlank(g);
    CleanAppend(t, rest);
    CleanPlain(t);
  }

  lemma ElementsCons(bs: seq<byte>, ls: seq<Layout>, tail: seq<byte>)
    requires |ls| == |bs| > 0
    ensures Elements(bs, ls) + tail == Piece(bs[0], ls[0]) + (Elements(bs[1..], ls[1..]) + tail)
  {
  }

  lemma LiteralsHead(bs: seq<byte>, ls: seq<Layout>, last: seq<byte>)
    requires |ls| == |bs| > 0
    ensures Literals(bs, ls) + [last] == [Literal(bs[0], ls[0].lower)] + (Literals(bs[1..], ls[1..]) + [last])
  {
  }

  lemma BlanksTail(ls: seq<Layout>)
    requires |ls| > 0 && Blanks(ls)
    ensures Blanks(ls[1..])
  {
  }

  /** Cleaning generated elements followed by any `tail` leaves the literals
      joined by commas, the cleaned tail being the last piece. */
  lemma {:induction false} CleanElements(bs: seq<byte>, ls: seq<Layout>, tail: seq<byte>)
    requires |ls| == |bs| && Blanks(ls)
    ensures Clean(Elements(bs, ls) + tail) == Join(Literals(bs, ls) + [Clean(tail)], Comma)
    decreases |bs|
  {
    if |bs| == 0 {
      assert Elements(bs, ls) + tail == tail;
      assert Literals(bs, ls) + [Clean(tail)] == [Clean(tail)];
    } else {
      var lit := Literal(bs[0], ls[0].lower);
      var rest := Elements(bs[1..], ls[1..]) + tail;
      var more := Literals(bs[1..], ls[1..]) + [Clean(tail)];
      LiteralShape(bs[0], ls[0].lower);
      ElementsCons(bs, ls, tail);
      AppendAssoc(ls[0].gap, lit + [Comma], rest);
      CleanElement(ls[0].gap, lit + [Comma], rest);
      BlanksTail(ls);
      CleanElements(bs[1..], ls[1..], tail);
      LiteralsHead(bs, ls, Clean(tail));
      JoinCons(lit, more, Comma);
    }
  }

  /** Splitting the cleaned elements of `bs` (with a `tail` holding no comma)
      gives back the literals with the tail as the last piece. */
  lemma {:induction false} SplitElements(bs: seq<byte>, ls: seq<Layout>, tail: seq<byte>)
    requires |ls| == |bs| && Blanks(ls)
    requires Comma !in Clean(tail)
    ensures Tokens(Clean(Elements(bs, ls) + tail)) == Literals(bs, ls)
  {
    CleanElements(bs, ls, tail);
    var parts := Literals(bs, ls) + [Clean(tail)];
    forall j | 0 <= j < |parts| ensures Comma !in parts[j] {
      if j < |bs| { LiteralShape(bs[j], ls[j].lower); }
    }
    SplitJoin(parts, Comma);
    assert parts[..|parts| - 1] == Literals(bs, ls);
  }

  lemma {:induction false} ParseLiterals(bs: seq<byte>, ls: seq<Layout>)
    requires |ls| == |bs|
    ensures ParseTokens(Literals(bs, ls), 0) == Success(bs)
  {
    var ts := Literals(bs, ls);
    forall j | 0 <= j < |ts| ensures ByteToken(ts[j]) && Value(ts[j][2..]) == bs[j] as int {
      LiteralShape(bs[j], ls[j].lower);
    }
    assert forall j :: 0 <= j < |ts| ==> ByteToken(ts[j]);
    var r := ParseTokens(ts, 0);
    assert r.Success?;
    assert |r.value| == |bs|;
    forall j | 0 <= j < |bs| ensures r.value[j] == bs[j] {
      assert r.value[j - 0] as int == Value(ts[j][2..]);
    }
    assert r.value == bs;
  }

  /** Round trip: however the generator indents and wraps the array and
      whichever case it prints the digits in, and whatever precedes the
      array (as long as it holds no `{`) or follows it, extraction returns
      exactly the bytes the generator wrote. */
  lemma {:induction false} RenderRoundTrip(pre: seq<byte>, bs: seq<byte>, ls: seq<Layout>, last: seq<byte>,
                                           post: seq<byte>)
    requires |ls| == |bs| && Blanks(ls) && Blank(last)
    requires OpenBrace !in pre
    ensures Extract(pre + Render(bs, ls, last) + post) == Success(bs)
  {
    var body := Elements(bs, ls) + last;
    ElementsNoBraces(bs, ls);
    assert OpenBrace !in last && CloseBrace !in last by {
      assert forall i :: 0 <= i < |last| ==> last[i] != OpenBrace && last[i] != CloseBrace;
    }
    assert pre + Render(bs, ls, last) + post == pre + [OpenBrace] + body + ([CloseBrace] + post);
    ExtractOf(pre, body, [CloseBrace] + post);
    CleanBlank(last);
    SplitElements(bs, ls, last);
    ParseLiterals(bs, ls);
  }

  /** Without the trailing comma the last element is silently lost: the
      final piece of the split is dropped whether or not it is empty. */
  lemma {:induction false} LastElementLost(pre: seq<byte>, bs: seq<byte>, ls: seq<Layout>, b: byte, lower: bool,
                                           post: seq<byte>)
    requires |ls| == |bs| && Blanks(ls)
    requires OpenBrace !in pre
    ensures Extract(pre + [OpenBrace] + Elements(bs, ls) + Literal(b, lower) + [CloseBrace] + post) == Success(bs)
  {
    ElementsNoBraces(bs, ls);
    LiteralShape(b, lower);
    var body := Elements(bs, ls) + Literal(b, lower);
    assert pre + [OpenBrace] + Elements(bs, ls) + Literal(b, lower) + [CloseBrace] + post
        == pre + [OpenBrace] + body + ([CloseBrace] + post);
    ExtractOf(pre, body, [CloseBrace] + post);
    CleanPlain(Literal(b, lower));
    SplitElements(bs, ls, Literal(b, lower));
    ParseLiterals(bs, ls);
  }

  /** A three-element array, piece by piece. */
  lemma RenderThree(bs: seq<byte>, ls: seq<Layout>, last: seq<byte>)
    requires |ls| == |bs| == 3
    ensures Render(bs, ls, last)
         == [OpenBrace] + (Piece(bs[0], ls[0]) + (Piece(bs[1], ls[1]) + (Piece(bs[2], ls[2]) + (last + [CloseBrace]))))
  {
    var close := last + [CloseBrace];
    ElementsCons(bs, ls, close);
    ElementsCons(bs[1..], ls[1..], close);
    ElementsCons(bs[2..], ls[2..], close);
    assert bs[1..][1..] == bs[2..] && ls[1..][1..] == ls[2..];
    assert bs[2..][1..] == [] && ls[2..][1..] == [];
  }

  lemma EmptyFront(a: seq<byte>, b: seq<byte>)
    ensures [] + a + b == a + b
  {
  }

  /** The example of a compiled array with surrounding declaration text. */
  lemma SampleArray()
    ensures Extract(Ascii("int f[] = {0x00, 0xFF, 0x10, };")) == Success([0x00, 0xFF, 0x10])
  {
    var bs: seq<byte> := [0x00, 0xFF, 0x10];
    var ls := [Layout([], false), Layout([Space], false), Layout([Space], false)];
    SampleText();
    SamplePieces();
    RenderThree(bs, ls, [Space]);
    RenderRoundTrip(Ascii("int f[] = "), bs, ls, [Space], Ascii(";"));
  }

  lemma SampleText()
    ensures Ascii("int f[] = {0x00, 0xFF, 0x10, };")
         == Ascii("int f[] = ") + ([OpenBrace] + (Ascii("0x00,") + (Ascii(" 0xFF,") + (Ascii(" 0x10,") + Ascii(" }")))))
            + Ascii(";")
  {
    SampleTextStep1();
    SampleTextStep2();
    SampleTextStep3();
    SampleTextStep4();
    SampleTextStep5();
    SampleTextStep6();
  }

  lemma SampleTextStep1()
    ensures Ascii(" 0x10, }") == Ascii(" 0x10,") + Ascii(" }")
  {
    AsciiAppend(" 0x10,", " }", " 0x10, }");
  }

  lemma SampleTextStep2()
    ensures Ascii(" 0xFF, 0x10, }") == Ascii(" 0xFF,") + Ascii(" 0x10, }")
  {
    AsciiAppend(" 0xFF,", " 0x10, }", " 0xFF, 0x10, }");
  }

  lemma SampleTextStep3()
    ensures Ascii("0x00, 0xFF, 0x10, }") == Ascii("0x00,") + Ascii(" 0xFF, 0x10, }")
  {
    AsciiAppend("0x00,", " 0xFF, 0x10, }", "0x00, 0xFF, 0x10, }");
  }

  lemma SampleTextStep4()
    ensures Ascii("{0x00, 0xFF, 0x10, }") == Ascii("{") + Ascii("0x00, 0xFF, 0x10, }")
  {
    AsciiAppend("{", "0x00, 0xFF, 0x10, }", "{0x00, 0xFF, 0x10, }");
  }

  lemma SampleTextStep5()
    ensures Ascii("int f[] = {0x00, 0xFF, 0x10, }") == Ascii("int f[] = ") + Ascii("{0x00, 0xFF, 0x10, }")
  {
    AsciiAppend("int f[] = ", "{0x00, 0xFF, 0x10, }", "int f[] = {0x00, 0xFF, 0x10, }");
  }

  lemma SampleTextStep6()
    ensures Ascii("int f[] = {0x00, 0xFF, 0x10, };") == Ascii("int f[] = {0x00, 0xFF, 0x10, }") + Ascii(";")
  {
    AsciiAppend("int f[] = {0x00, 0xFF, 0x10, }", ";", "int f[] = {0x00, 0xFF, 0x10, };");
  }


  lemma SamplePieces()
    ensures Ascii("0x00,") == Piece(0x00, Layout([], false))
    ensures Ascii(" 0xFF,") == Piece(0xFF, Layout([Space], false))
    ensures Ascii(" 0x10,") == Piece(0x10, Layout([Space], false))
    ensures Ascii(" }") == [Space] + [CloseBrace]
  {
    assert Literal(0x00, false) == [0x30, 0x78, 0x30, 0x30];
    assert Literal(0xFF, false) == [0x30, 0x78, 0x46, 0x46];
    assert Literal(0x10, false) == [0x30, 0x78, 0x31, 0x30];
  }

  /** A wrapped, indented array in lower case, as compilers print longer
      arrays, followed by the end of its declaration. */
  lemma WrappedArray()
    ensures Extract(Ascii("{\n 0x0a, 0xff,\n 0x7b,\n};")) == Success([0x0A, 0xFF, 0x7B])
  {
    var bs: seq<byte> := [0x0A, 0xFF, 0x7B];
    var ls := [Layout([Newline, Space], true), Layout([Space], true), Layout([Newline, Space], true)];
    WrappedText();
    WrappedPieces();
    RenderThree(bs, ls, [Newline]);
    EmptyFront(Render(bs, ls, [Newline]), Ascii(";"));
    RenderRoundTrip([], bs, ls, [Newline], Ascii(";"));
  }

  lemma WrappedText()
    ensures Ascii("{\n 0x0a, 0xff,\n 0x7b,\n};")
         == ([OpenBrace] + (Ascii("\n 0x0a,") + (Ascii(" 0xff,") + (Ascii("\n 0x7b,") + Ascii("\n}"))))) + Ascii(";")
  {
    WrappedTextStep1();
    WrappedTextStep2();
    WrappedTextStep3();
    WrappedTextStep4();
    WrappedTextStep5();
  }

  lemma WrappedTextStep1()
    ensures Ascii("\n 0x7b,\n}") == Ascii("\n 0x7b,") + Ascii("\n}")
  {
    AsciiAppend("\n 0x7b,", "\n}", "\n 0x7b,\n}");
  }

  lemma WrappedTextStep2()
    ensures Ascii(" 0xff,\n 0x7b,\n}") == Ascii(" 0xff,") + Ascii("\n 0x7b,\n}")
  {
    AsciiAppend(" 0xff,", "\n 0x7b,\n}", " 0xff,\n 0x7b,\n}");
  }

  lemma WrappedTextStep3()
    ensures Ascii("\n 0x0a, 0xff,\n 0x7b,\n}") == Ascii("\n 0x0a,") + Ascii(" 0xff,\n 0x7b,\n}")
  {
    AsciiAppend("\n 0x0a,", " 0xff,\n 0x7b,\n}", "\n 0x0a, 0xff,\n 0x7b,\n}");
  }

  lemma WrappedTextStep4()
    ensures Ascii("{\n 0x0a, 0xff,\n 0x7b,\n}") == Ascii("{") + Ascii("\n 0x0a, 0xff,\n 0x7b,\n}")
  {
    AsciiAppend("{", "\n 0x0a, 0xff,\n 0x7b,\n}", "{\n 0x0a, 0xff,\n 0x7b,\n}");
  }

  lemma WrappedTextStep5()
    ensures Ascii("{\n 0x0a, 0xff,\n 0x7b,\n};") == Ascii("{\n 0x0a, 0xff,\n 0x7b,\n}") + Ascii(";")
  {
    AsciiAppend("{\n 0x0a, 0xff,\n 0x7b,\n}", ";", "{\n 0x0a, 0xff,\n 0x7b,\n};");
  }

  lemma WrappedPieces()
    ensures Ascii("\n 0x0a,") == Piece(0x0A, Layout([Newline, Space], true))
    ensures Ascii(" 0xff,") == Piece(0xFF, Layout([Space], true))
    ensures Ascii("\n 0x7b,") == Piece(0x7B, Layout([Newline, Space], true))
    ensures Ascii("\n}") == [Newline] + [CloseBrace]
  {
    assert Literal(0x0A, true) == [0x30, 0x78, 0x30, 0x61];
    assert Literal(0xFF, true) == [0x30, 0x78, 0x66, 0x66];
    assert Literal(0x7B, true) == [0x30, 0x78, 0x37, 0x62];
  }

  /** An element whose digits are not base-16 is a parse failure. */
  lemma NonHexRejected()
    ensures Extract(Ascii("{0xZZ, }")) == Failure(BadToken(0, Ascii("0xZZ"), NotAByte(ErrSyntax)))
  {
    var t: seq<byte> := [0x30, 0x78, 0x5A, 0x5A];
    assert Ascii("0xZZ") == t;
    assert Ascii("{0xZZ, }") == [OpenBrace] + t + [Comma, Space, CloseBrace];
    SingleElement(t);
    BadDigits(t);
  }

  lemma BadDigits(t: seq<byte>)
    requires t == [0x30, 0x78, 0x5A, 0x5A]
    ensures ParseTokens([t], 0) == Failure(BadToken(0, t, NotAByte(ErrSyntax)))
  {
    assert t[2..] == [0x5A, 0x5A];
    assert DigitValue(0x5A) == None;
    assert ParseUint8(t[2..]) == Failure(ErrSyntax);
  }

  /** An array with one element followed by a comma and a space. */
  lemma {:induction false} SingleElement(t: seq<byte>)
    requires OpenBrace !in t && CloseBrace !in t
    requires Comma !in t && Space !in t && Newline !in t
    ensures Extract([OpenBrace] + t + [Comma, Space, CloseBrace]) == ParseTokens([t], 0)
  {
    var body := t + [Comma, Space];
    SingleText(t);
    ExtractOf([], body, [CloseBrace]);
    SingleTokens(t);
  }

  lemma SingleText(t: seq<byte>)
    ensures [OpenBrace] + t + [Comma, Space, CloseBrace] == [] + [OpenBrace] + (t + [Comma, Space]) + [CloseBrace]
  {
  }

  lemma SingleTokens(t: seq<byte>)
    requires Comma !in t && Space !in t && Newline !in t
    ensures Tokens(Clean(t + [Comma, Space])) == [t]
  {
    CleanSingle(t);
    SplitAfter(t, Comma, []);
    var nothing: seq<byte> := [];
    SplitWithout(nothing, Comma);
    assert t + [Comma] + nothing == t + [Comma];
  }

  lemma {:induction false} CleanSingle(t: seq<byte>)
    requires Comma !in t && Space !in t && Newline !in t
    ensures Clean(t + [Comma, Space]) == t + [Comma]
  {
    var u := t + [Comma];
    assert t + [Comma, Space] == u + [Space];
    CleanAppend(u, [Space]);
    CleanBlank([Space]);
    CleanPlain(u);
    assert u + [] == u;
  }
}
