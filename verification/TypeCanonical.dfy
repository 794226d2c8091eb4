/** Printed types and what their canonical form keeps: names, field types, their number and order. */
module TypeCanonical {
  import opened Wrappers
  import opened TypeStrings

  // Types as they are printed
  // ----------------------------------------------------------------------------

  /** Fields on one line, padded with blanks inside the braces and around the commas, or each on its own
      line, the closing brace on the last of these or on a line of its own. */
  datatype Layout = Inline(padding: nat, before: nat, after: nat) | Multiline(indent: nat, hanging: bool)

  /** A label and the blanks before and after its colon. */
  datatype Label = Label(name: string, before: nat, after: nat)

  datatype Printed = Named(name: string) | Record(name: string, layout: Layout, fields: Fields)
  datatype Fields = NoFields | Field(lab: Option<Label>, ty: Printed, rest: Fields)

  /** Types without labels and layout. */
  datatype Ty = NamedTy(name: string) | RecordTy(name: string, fields: Tys)
  datatype Tys = Nil | Cons(head: Ty, tail: Tys)

  function Erase(p: Printed): Ty {
    match p
    case Named(name) => NamedTy(name)
    case Record(name, _, fields) => RecordTy(name, EraseFields(fields))
  }

  function EraseFields(fs: Fields): Tys {
    match fs
    case NoFields => Nil
    case Field(_, ty, rest) => Cons(Erase(ty), EraseFields(rest))
  }

  predicate NameChar(c: char) { IdentChar(c) || c == ':' }

  predicate AllName(s: string) { s == [] || (NameChar(s[0]) && AllName(s[1..])) }

  predicate AllIdent(s: string) { s == [] || (IdentChar(s[0]) && AllIdent(s[1..])) }

  /** An identifier, possibly followed by a double colon and more. */
  predicate ValidName(s: string) {
    && s != [] && IdentStart(s[0]) && AllName(s)
    && var k := Span(Identifier, s); k == |s| || (k + 1 < |s| && s[k] == ':' && s[k + 1] == ':')
  }

  predicate ValidLabel(s: string) { s != [] && IdentStart(s[0]) && AllIdent(s) }

  predicate Valid(p: Printed) {
    match p
    case Named(name) => ValidName(name)
    case Record(name, _, fields) => ValidName(name) && ValidFields(fields)
  }

  predicate ValidFields(fs: Fields) {
    match fs
    case NoFields => true
    case Field(lab, ty, rest) => (lab.Some? ==> ValidLabel(lab.value.name)) && Valid(ty) && ValidFields(rest)
  }

  const KEYWORD: string := "struct"

  function Indent(n: nat): string { if n == 0 then [] else " " + Indent(n - 1) }

  function Separator(layout: Layout, first: bool): string {
    match layout
    case Inline(padding, before, after) => if first then Indent(padding) else Indent(before) + ("," + Indent(after))
    case Multiline(indent, _) => "\n" + Indent(indent)
  }

  /** What stands before the closing brace. */
  function Padding(layout: Layout): string {
    match layout
    case Inline(padding, _, _) => Indent(padding)
    case Multiline(indent, hanging) => if hanging then "\n" + Indent(indent) else []
  }

  function LabelText(lab: Option<Label>): string {
    match lab
    case Some(Label(name, before, after)) => name + (Indent(before) + (":" + Indent(after)))
    case None => []
  }

  function Heading(name: string, brace: string): string { KEYWORD + (" " + (name + brace)) }

  function Print(p: Printed): string {
    match p
    case Named(name) => name
    case Record(name, layout, fields) => Heading(name, " {") + PrintFields(fields, layout, true) + "}"
  }

  function PrintFields(fs: Fields, layout: Layout, first: bool): string {
    match fs
    case NoFields => Padding(layout)
    case Field(lab, ty, rest) =>
      Separator(layout, first) + (LabelText(lab) + (Print(ty) + PrintFields(rest, layout, false)))
  }

  // The canonical form
  // ----------------------------------------------------------------------------

  function Canon(t: Ty): string {
    match t
    case NamedTy(name) => name
    case RecordTy(name, fields) => Heading(name, "{") + CanonFields(fields, false) + "}"
  }

  function Comma(comma: bool): string { if comma then "," else [] }

  /** A comma stands after a named field only; a closing brace separates by itself. */
  function CanonFields(ts: Tys, comma: bool): string {
    match ts
    case Nil => []
    case Cons(head, tail) => Comma(comma) + (Canon(head) + CanonFields(tail, head.NamedTy?))
  }

  // Label removal on printed types
  // ----------------------------------------------------------------------------

  /** What is left of a label. */
  function LabelGap(lab: Option<Label>): string { if lab.Some? then Indent(lab.value.after) else [] }

  function Stripped(p: Printed): string {
    match p
    case Named(name) => name
    case Record(name, layout, fields) => Heading(name, " {") + StrippedFields(fields, layout, true) + "}"
  }

  function StrippedFields(fs: Fields, layout: Layout, first: bool): string {
    match fs
    case NoFields => Padding(layout)
    case Field(lab, ty, rest) =>
      Separator(layout, first) + (LabelGap(lab) + (Stripped(ty) + StrippedFields(rest, layout, false)))
  }

  /** What may follow a field: nothing that continues its name or makes a label of it. */
  predicate Follows(s: string) {
    s == [] || (!NameChar(s[0]) && !SingleColon(s[Span(Blanks, s)..]))
  }

  /** Characters that label removal copies, outside the start of a field. */
  predicate Copied(c: char) { NameChar(c) || c == ' ' }

  predicate AllCopied(s: string) { s == [] || (Copied(s[0]) && AllCopied(s[1..])) }

  lemma StripHead(c: char, s: string, depth: nat, start: bool)
    requires Copied(c) && !(depth > 0 && start && IdentStart(c))
    ensures Strip([c] + s, depth, start) == [c] + Strip(s, depth, start && (depth == 0 || c == ' '))
  {
    StepHead(c, [c] + s, depth, start);
    assert ([c] + s)[1..] == s;
  }

  lemma StepHead(c: char, t: string, depth: nat, start: bool)
    requires t != [] && t[0] == c && Copied(c) && !(depth > 0 && start && IdentStart(c))
    ensures StripStep(t, depth, start) == Move([c], 1, depth, start && (depth == 0 || c == ' '))
  {
  }

  lemma StripBrace(s: string, depth: nat, start: bool)
    ensures Strip("{" + s, depth, start) == "{" + Strip(s, depth + 1, true)
    ensures Strip("}" + s, depth + 1, start) == "}" + Strip(s, depth, false)
  {
    assert ("{" + s)[1..] == s && ("}" + s)[1..] == s;
  }

  lemma StripSeparator(c: char, s: string, depth: nat, start: bool)
    requires depth > 0 && (c == ',' || Newline(c))
    ensures Strip([c] + s, depth, start) == [c] + Strip(s, depth, true)
  {
    assert ([c] + s)[0] == c && ([c] + s)[1..] == s;
  }

  lemma {:induction false} StripCopied(x: string, s: string, depth: nat)
    requires AllCopied(x)
    ensures Strip(x + s, depth, false) == x + Strip(s, depth, false)
    decreases |x|
  {
    if x == [] {
      assert x + s == s;
    } else {
      Assoc([x[0]], x[1..], s);
      assert x == [x[0]] + x[1..];
      StripHead(x[0], x[1..] + s, depth, false);
      StripCopied(x[1..], s, depth);
      Assoc([x[0]], x[1..], Strip(s, depth, false));
    }
  }

  predicate AllBlank(x: string) { x == [] || (x[0] == ' ' && AllBlank(x[1..])) }

  lemma {:induction false} IndentIsBlank(n: nat)
    ensures AllBlank(Indent(n))
  {
    if n > 0 {
      IndentIsBlank(n - 1);
      assert Indent(n)[1..] == Indent(n - 1);
    }
  }

  lemma {:induction false} StripBlanks(x: string, s: string, depth: nat, start: bool)
    requires AllBlank(x)
    ensures Strip(x + s, depth, start) == x + Strip(s, depth, start)
    decreases |x|
  {
    if x == [] {
      assert x + s == s;
    } else {
      Assoc([x[0]], x[1..], s);
      assert x == [x[0]] + x[1..];
      StripHead(x[0], x[1..] + s, depth, start);
      StripBlanks(x[1..], s, depth, start);
      Assoc([x[0]], x[1..], Strip(s, depth, start));
    }
  }

  lemma {:induction false} SpanBlank(x: string, s: string)
    requires AllBlank(x) && s != [] && !Blank(s[0])
    ensures Span(Blanks, x + s) == |x|
    decreases |x|
  {
    if x == [] {
      assert x + s == s;
    } else {
      assert (x + s)[1..] == x[1..] + s;
      SpanBlank(x[1..], s);
    }
  }

  lemma {:induction false} NameIsCopied(x: string)
    requires AllName(x)
    ensures AllCopied(x)
    decreases |x|
  {
    if x != [] {
      NameIsCopied(x[1..]);
    }
  }

  // Identifiers at the start of a field
  // ----------------------------------------------------------------------------

  lemma {:induction false} SpanStops(x: string, s: string)
    requires AllIdent(x) && (s == [] || !IdentChar(s[0]))
    ensures Span(Identifier, x + s) == |x|
    decreases |x|
  {
    if x == [] {
      assert x + s == s;
    } else {
      assert (x + s)[1..] == x[1..] + s;
      SpanStops(x[1..], s);
    }
  }

  lemma IdentFirst(x: string, s: string, w: string)
    requires ValidLabel(x) && (s == [] || !IdentChar(s[0])) && w == x + s
    ensures |x| == 1 + Span(Identifier, w[1..]) && w[|x|..] == s && w[..|x|] == x
  {
    assert w[1..] == x[1..] + s;
    SpanStops(x[1..], s);
  }

  lemma LabelStepOn(x: string, s: string, w: string)
    requires ValidLabel(x) && (s == [] || !IdentChar(s[0])) && w == x + s
    ensures LabelStep(w) == var b := Span(Blanks, s); if SingleColon(s[b..]) then ([], |x| + b + 1) else (x, |x|)
  {
    IdentFirst(x, s, w);
    LabelStepSplit(w, |x|, Span(Blanks, s));
  }

  lemma LabelStepSplit(w: string, k: nat, b: nat)
    requires w != [] && k == 1 + Span(Identifier, w[1..]) && b == Span(Blanks, w[k..])
    ensures LabelStep(w) == if SingleColon(w[k..][b..]) then ([], k + b + 1) else (w[..k], k)
  {
    assert w[k..][b..] == w[k + b..];
  }

  lemma StripIdent(x: string, s: string, depth: nat)
    requires depth > 0 && ValidLabel(x) && (s == [] || !IdentChar(s[0])) && !SingleColon(s[Span(Blanks, s)..])
    ensures Strip(x + s, depth, true) == x + Strip(s, depth, false)
  {
    LabelStepOn(x, s, x + s);
    assert (x + s)[|x|..] == s && (x + s)[0] == x[0];
  }

  lemma ColonAhead(n: nat, s: string, rest: string)
    requires (s == [] || s[0] != ':') && rest == Indent(n) + (":" + s)
    ensures var b := Span(Blanks, rest); SingleColon(rest[b..]) && !IdentChar(rest[0]) && rest[b + 1..] == s
  {
    IndentIsBlank(n);
    SpanBlank(Indent(n), ":" + s);
    var b := Span(Blanks, rest);
    assert rest[b..] == ":" + s && rest[b + 1..] == (":" + s)[1..] == s;
    assert s != [] ==> (":" + s)[1] == s[0];
  }

  lemma StripLabel(x: string, n: nat, s: string, rest: string, depth: nat)
    requires depth > 0 && ValidLabel(x) && (s == [] || s[0] != ':') && rest == Indent(n) + (":" + s)
    ensures Strip(x + rest, depth, true) == Strip(s, depth, false)
  {
    ColonAhead(n, s, rest);
    var b := Span(Blanks, rest);
    LabelStepOn(x, rest, x + rest);
    StepLabel(x + rest, |x| + b + 1, depth);
    assert (x + rest)[|x| + b + 1..] == rest[b + 1..];
  }

  lemma StepLabel(t: string, n: nat, depth: nat)
    requires depth > 0 && t != [] && IdentStart(t[0]) && LabelStep(t) == ([], n)
    ensures Strip(t, depth, true) == Strip(t[n..], depth, false)
  {
  }

  /** A qualified name splits into its first identifier and the rest. */
  lemma {:induction false} SplitName(q: string, k: nat)
    requires AllName(q) && k == Span(Identifier, q)
    ensures AllIdent(q[..k]) && AllName(q[k..])
    decreases |q|
  {
    if k > 0 {
      SplitName(q[1..], k - 1);
      assert q[..k][1..] == q[1..][..k - 1] && q[1..][k - 1..] == q[k..];
    }
  }

  lemma NoLabelAhead(y: string, s: string)
    requires Follows(s) && (y == [] || (|y| > 1 && y[0] == ':' && y[1] == ':'))
    ensures y + s == [] || (!IdentChar((y + s)[0]) && !SingleColon((y + s)[Span(Blanks, y + s)..]))
  {
    if y == [] {
      assert y + s == s;
    } else {
      assert (y + s)[0] == ':' && (y + s)[1] == ':' && Span(Blanks, y + s) == 0;
    }
  }

  lemma StripName(q: string, s: string, depth: nat)
    requires depth > 0 && ValidName(q) && Follows(s)
    ensures Strip(q + s, depth, true) == q + Strip(s, depth, false)
  {
    var k := Span(Identifier, q);
    SplitName(q, k);
    var x, y := q[..k], q[k..];
    assert q == x + y;
    Assoc(x, y, s);
    NoLabelAhead(y, s);
    StripIdent(x, y + s, depth);
    NameIsCopied(y);
    StripCopied(y, s, depth);
    Assoc(x, y, Strip(s, depth, false));
  }

  lemma KeywordFacts()
    ensures ValidLabel(KEYWORD) && AllName(KEYWORD) && AllCopied(KEYWORD)
  {
    var k := KEYWORD;
    assert k[1..] == "truct" && k[1..][1..] == "ruct" && k[1..][1..][1..] == "uct" && k[1..][1..][1..][1..] == "ct"
        && k[1..][1..][1..][1..][1..] == "t" && k[1..][1..][1..][1..][1..][1..] == [];
    NameIsCopied(KEYWORD);
  }

  lemma HeadingSplit(name: string, brace: string, s: string)
    ensures Heading(name, brace) + s == KEYWORD + (" " + (name + (brace + s)))
  {
    Assoc(KEYWORD, " " + (name + brace), s);
    Assoc(" ", name + brace, s);
    Assoc(name, brace, s);
  }

  lemma StripRecordName(name: string, s: string, depth: nat)
    requires ValidName(name)
    ensures Strip(name + (" {" + s), depth, false) == name + (" {" + Strip(s, depth + 1, true))
  {
    NameIsCopied(name);
    assert " {" + s == " " + ("{" + s) && " {" + Strip(s, depth + 1, true) == " " + ("{" + Strip(s, depth + 1, true));
    StripBrace(s, depth, false);
    StripHead(' ', "{" + s, depth, false);
    StripCopied(name, " {" + s, depth);
  }

  /** The head of a record, at the start of a field or elsewhere. */
  lemma StripHeading(name: string, s: string, depth: nat, start: bool)
    requires ValidName(name) && (start ==> depth > 0)
    ensures Strip(Heading(name, " {") + s, depth, start) == Heading(name, " {") + Strip(s, depth + 1, true)
  {
    HeadingSplit(name, " {", s);
    HeadingSplit(name, " {", Strip(s, depth + 1, true));
    var tail := name + (" {" + s);
    StripRecordName(name, s, depth);
    StripHead(' ', tail, depth, false);
    KeywordFacts();
    if start {
      BlankAhead(name[0], tail, " " + tail);
      StripIdent(KEYWORD, " " + tail, depth);
    } else {
      StripCopied(KEYWORD, " " + tail, depth);
    }
  }

  lemma BlankAhead(c: char, s: string, rest: string)
    requires s != [] && s[0] == c && IdentStart(c) && rest == " " + s
    ensures Span(Blanks, rest) == 1 && !SingleColon(rest[1..]) && rest[0] == ' '
  {
    assert rest[1..] == s;
  }

  /** Blanks and a closing brace or a comma. */
  lemma FollowsBlanks(x: string, c: char, s: string)
    requires AllBlank(x) && (c == '}' || c == ',')
    ensures Follows(x + ([c] + s))
  {
    SpanBlank(x, [c] + s);
    assert (x + ([c] + s))[|x|..] == [c] + s;
  }

  lemma FollowsFields(fs: Fields, layout: Layout, s: string)
    ensures Follows(PrintFields(fs, layout, false) + ("}" + s))
  {
    var t := PrintFields(fs, layout, false) + ("}" + s);
    match layout
    case Inline(padding, before, after) =>
      if fs.NoFields? {
        IndentIsBlank(padding);
        FollowsBlanks(Indent(padding), '}', s);
      } else {
        var more := LabelText(fs.lab) + (Print(fs.ty) + PrintFields(fs.rest, layout, false));
        IndentIsBlank(before);
        FollowsBlanks(Indent(before), ',', Indent(after) + (more + ("}" + s)));
        Assoc(Indent(before) + ("," + Indent(after)), more, "}" + s);
        Nest2(Indent(before), ",", Indent(after), more + ("}" + s));
      }
    case Multiline(_, hanging) =>
      assert fs.Field? || hanging ==> t[0] == '\n' && Span(Blanks, t) == 0;
      assert fs.NoFields? && !hanging ==> t == "}" + s;
  }

  lemma Nest2(a: string, b: string, c: string, s: string)
    ensures a + (b + c) + s == a + (b + (c + s))
  {
    Assoc(a, b + c, s);
    Assoc(b, c, s);
  }

  /** A separator, if there is one, brings the scan to the start of a field. */
  lemma StripSep(layout: Layout, first: bool, s: string, depth: nat, start: bool)
    requires depth > 0 && start == first
    ensures Strip(Separator(layout, first) + s, depth, start) == Separator(layout, first) + Strip(s, depth, true)
  {
    match layout
    case Inline(padding, before, after) =>
      IndentIsBlank(padding);
      IndentIsBlank(before);
      IndentIsBlank(after);
      if first {
        StripBlanks(Indent(padding), s, depth, true);
      } else {
        Nest2(Indent(before), ",", Indent(after), s);
        StripBlanks(Indent(before), "," + (Indent(after) + s), depth, start);
        StripSeparator(',', Indent(after) + s, depth, start);
        StripBlanks(Indent(after), s, depth, true);
        Nest2(Indent(before), ",", Indent(after), Strip(s, depth, true));
      }
    case Multiline(indent, _) =>
      Assoc("\n", Indent(indent), s);
      StripSeparator('\n', Indent(indent) + s, depth, start);
      IndentIsBlank(indent);
      StripBlanks(Indent(indent), s, depth, true);
      Assoc("\n", Indent(indent), Strip(s, depth, true));
  }

  lemma StripLabelText(lab: Label, s: string, depth: nat)
    requires depth > 0 && ValidLabel(lab.name) && Starts(s)
    ensures Strip(LabelText(Some(lab)) + s, depth, true) == Indent(lab.after) + Strip(s, depth, false)
  {
    var gap := Indent(lab.after);
    IndentIsBlank(lab.after);
    assert (gap + s)[0] != ':';
    StripLabel(lab.name, lab.before, gap + s, Indent(lab.before) + (":" + (gap + s)), depth);
    StripBlanks(gap, s, depth, false);
    Nest(lab.name, Indent(lab.before), ":", gap, s);
  }

  lemma PrintStarts(p: Printed, s: string)
    requires Valid(p)
    ensures Starts(Print(p) + s)
  {
    KeywordFacts();
    assert p.Record? ==> Print(p)[0] == KEYWORD[0];
  }

  lemma {:induction false} StripType(p: Printed, s: string, depth: nat, start: bool)
    requires Valid(p) && Follows(s) && (start ==> depth > 0)
    ensures Strip(Print(p) + s, depth, start) == Stripped(p) + Strip(s, depth, false)
    decreases p
  {
    match p
    case Named(name) =>
      if start {
        StripName(name, s, depth);
      } else {
        NameIsCopied(name);
        StripCopied(name, s, depth);
      }
    case Record(name, layout, fields) =>
      var body, body' := PrintFields(fields, layout, true), StrippedFields(fields, layout, true);
      Assoc(Heading(name, " {"), body + "}", s);
      Assoc(Heading(name, " {"), body, "}");
      Assoc(body, "}", s);
      StripHeading(name, body + ("}" + s), depth, start);
      StripBody(fields, layout, true, s, depth);
      var rest := Strip(s, depth, false);
      Assoc(Heading(name, " {"), body' + "}", rest);
      Assoc(Heading(name, " {"), body', "}");
      Assoc(body', "}", rest);
  }

  lemma StripBlankClosing(n: nat, s: string, depth: nat, start: bool)
    ensures Strip(Indent(n) + ("}" + s), depth + 1, start) == Indent(n) + ("}" + Strip(s, depth, false))
  {
    IndentIsBlank(n);
    StripBrace(s, depth, start);
    StripBlanks(Indent(n), "}" + s, depth + 1, start);
  }

  lemma StripPadding(layout: Layout, s: string, depth: nat, start: bool)
    ensures Strip(Padding(layout) + ("}" + s), depth + 1, start) == Padding(layout) + ("}" + Strip(s, depth, false))
  {
    match layout
    case Inline(padding, _, _) => StripBlankClosing(padding, s, depth, start);
    case Multiline(indent, hanging) =>
      if hanging {
        Assoc("\n", Indent(indent), "}" + s);
        StripSeparator('\n', Indent(indent) + ("}" + s), depth + 1, start);
        StripBlankClosing(indent, s, depth, true);
        Assoc("\n", Indent(indent), "}" + Strip(s, depth, false));
      } else {
        StripBlankClosing(0, s, depth, start);
      }
  }

  lemma StripField(lab: Option<Label>, s: string, s': string, depth: nat)
    requires depth > 0 && (lab.Some? ==> ValidLabel(lab.value.name)) && Starts(s) && Strip(s, depth, lab.None?) == s'
    ensures Strip(LabelText(lab) + s, depth, true) == LabelGap(lab) + s'
  {
    if lab.Some? {
      StripLabelText(lab.value, s, depth);
    } else {
      assert LabelText(lab) + s == s && LabelGap(lab) + s' == s';
    }
  }

  lemma {:induction false} StripBody(fs: Fields, layout: Layout, first: bool, s: string, depth: nat)
    requires ValidFields(fs)
    ensures Strip(PrintFields(fs, layout, first) + ("}" + s), depth + 1, first)
         == StrippedFields(fs, layout, first) + ("}" + Strip(s, depth, false))
    decreases fs
  {
    match fs
    case NoFields => StripPadding(layout, s, depth, first);
    case Field(lab, ty, rest) =>
      var more := PrintFields(rest, layout, false) + ("}" + s);
      var more' := StrippedFields(rest, layout, false) + ("}" + Strip(s, depth, false));
      FollowsFields(rest, layout, s);
      StripBody(rest, layout, false, s, depth);
      StripType(ty, more, depth + 1, lab.None?);
      PrintStarts(ty, more);
      StripField(lab, Print(ty) + more, Stripped(ty) + more', depth + 1);
      StripSep(layout, first, LabelText(lab) + (Print(ty) + more), depth + 1, first);
      Nest(Separator(layout, first), LabelText(lab), Print(ty), PrintFields(rest, layout, false), "}" + s);
      Nest(Separator(layout, first), LabelGap(lab), Stripped(ty), StrippedFields(rest, layout, false), "}" + Strip(s, depth, false));
  }

  lemma Nest(a: string, b: string, c: string, d: string, s: string)
    ensures a + (b + (c + d)) + s == a + (b + (c + (d + s)))
  {
    Assoc(a, b + (c + d), s);
    Assoc(b, c + d, s);
    Assoc(c, d, s);
  }

  // Separators and spaces
  // ----------------------------------------------------------------------------

  /** What the first pass leaves between two fields. */
  function Gap(layout: Layout, first: bool, lab: Option<Label>, pending: bool): string {
    match layout
    case Inline(padding, before, after) =>
      if first then OneSpaceFor(Indent(padding) + LabelGap(lab))
      else CommaGap(Indent(before), Indent(after) + LabelGap(lab), pending)
    case Multiline(_, _) => if pending then "," else " "
  }

  /** What is left of a run of blanks. */
  function OneSpaceFor(w: string): string { if w == [] then [] else " " }

  /** A comma with blanks v before and w after it. */
  function CommaGap(v: string, w: string, pending: bool): string {
    if pending then OneSpaceFor(v) + ("," + OneSpaceFor(w)) else OneSpaceFor(v + w)
  }

  function Spaced(p: Printed): string {
    match p
    case Named(name) => name
    case Record(name, layout, fields) => Heading(name, " {") + SpacedFields(fields, layout, true, false) + "}"
  }

  function SpacedFields(fs: Fields, layout: Layout, first: bool, pending: bool): string {
    match fs
    case NoFields => OneSpaceFor(Padding(layout))
    case Field(lab, ty, rest) =>
      Gap(layout, first, lab, pending) + (Spaced(ty) + SpacedFields(rest, layout, false, ty.Named?))
  }

  /** A character that starts a type. */
  predicate Starts(s: string) { s != [] && IdentStart(s[0]) }

  /** Output that a space can be appended to. */
  predicate Solid(out: string) { out != [] && out[|out| - 1] != ' ' }

  lemma NormalHead(c: char, t: string, s: string, depth: nat, pending: bool, out: string)
    requires NameChar(c) && t == [c] + s
    ensures Pass1(t, depth, pending, out) == Pass1(s, depth, pending || depth > 0, out + [c])
  {
    assert t[0] == c && t[1..] == s;
  }

  lemma {:induction false} NormalName(x: string, s: string, depth: nat, pending: bool, out: string)
    requires AllName(x) && x != []
    ensures Pass1(x + s, depth, pending, out) == Pass1(s, depth, pending || depth > 0, out + x)
    decreases |x|
  {
    assert x == [x[0]] + x[1..];
    Assoc([x[0]], x[1..], s);
    NormalHead(x[0], x + s, x[1..] + s, depth, pending, out);
    if |x| == 1 {
      assert x[1..] + s == s;
    } else {
      NormalName(x[1..], s, depth, pending || depth > 0, out + [x[0]]);
      Assoc(out, [x[0]], x[1..]);
    }
  }

  lemma NormalBrace(s: string, depth: nat, pending: bool, out: string)
    ensures Pass1("{" + s, depth, pending, out) == Pass1(s, depth + 1, false, out + "{")
    ensures Pass1("}" + s, depth + 1, pending, out) == Pass1(s, depth, false, out + "}")
  {
    assert ("{" + s)[1..] == s && ("}" + s)[1..] == s;
  }

  lemma NormalComma(s: string, depth: nat, pending: bool, out: string)
    requires depth > 0
    ensures Pass1("," + s, depth, pending, out) == Pass1(s, depth, false, out + Comma(pending))
  {
    assert ("," + s)[1..] == s;
  }

  predicate AllSpace(w: string) { w == [] || (Whitespace(w[0]) && AllSpace(w[1..])) }

  lemma {:induction false} SpanSpace(w: string, s: string)
    requires AllSpace(w) && (s == [] || !Whitespace(s[0]))
    ensures Span(TypeStrings.Spaces, w + s) == |w|
    decreases |w|
  {
    if w == [] {
      assert w + s == s;
    } else {
      assert (w + s)[1..] == w[1..] + s;
      SpanSpace(w[1..], s);
    }
  }

  /** A run of spaces before a type becomes a comma, if it holds a newline after a named field. */
  lemma NormalSpace(w: string, s: string, depth: nat, pending: bool, out: string)
    requires AllSpace(w) && w != [] && (s == [] || !Whitespace(s[0])) && Solid(out)
    requires HasNewline(w) ==> depth > 0 && (Starts(s) || (s != [] && s[0] == '}'))
    ensures Pass1(w + s, depth, pending, out)
         == if HasNewline(w) && pending && Starts(s) then Pass1(s, depth, false, out + ",") else Pass1(s, depth, pending, out + " ")
  {
    SpanSpace(w, s);
    assert (w + s)[..|w|] == w && (w + s)[|w|..] == s;
    NormalSpaceStep(w + s, |w|, depth, pending, out);
  }

  lemma NormalSpaceStep(t: string, k: nat, depth: nat, pending: bool, out: string)
    requires t != [] && Whitespace(t[0]) && k == Span(TypeStrings.Spaces, t) && Solid(out)
    requires HasNewline(t[..k]) ==> depth > 0 && (Starts(t[k..]) || (k < |t| && t[k] == '}'))
    ensures Pass1(t, depth, pending, out)
         == if HasNewline(t[..k]) && pending && Starts(t[k..]) then Pass1(t[k..], depth, false, out + ",")
            else Pass1(t[k..], depth, pending, out + " ")
  {
  }

  lemma NormalKeyword(tail: string, depth: nat, pending: bool, out: string)
    requires Starts(tail)
    ensures Pass1(KEYWORD + (" " + tail), depth, pending, out) == Pass1(tail, depth, pending || depth > 0, out + KEYWORD + " ")
  {
    KeywordFacts();
    NormalName(KEYWORD, " " + tail, depth, pending, out);
    OneBlank(" ");
    NormalSpace(" ", tail, depth, pending || depth > 0, out + KEYWORD);
  }

  lemma OneBlank(w: string)
    requires w == " "
    ensures AllSpace(w) && !HasNewline(w)
  {
    assert w[1..] == [];
  }

  lemma NormalRecordName(name: string, s: string, depth: nat, pending: bool, out: string)
    requires ValidName(name)
    ensures Pass1(name + (" {" + s), depth, pending, out) == Pass1(s, depth + 1, false, out + name + " {")
  {
    NormalName(name, " {" + s, depth, pending, out);
    NameEnds(name);
    assert " {" + s == " " + ("{" + s) && out + name + " {" == out + name + " " + "{";
    NormalBlankBrace(s, " {" + s, depth, pending || depth > 0, out + name);
  }

  lemma NormalHeading(name: string, s: string, depth: nat, pending: bool, out: string)
    requires ValidName(name)
    ensures Pass1(Heading(name, " {") + s, depth, pending, out) == Pass1(s, depth + 1, false, out + Heading(name, " {"))
  {
    HeadingSplit(name, " {", s);
    NormalKeyword(name + (" {" + s), depth, pending, out);
    NormalRecordName(name, s, depth, pending || depth > 0, out + KEYWORD + " ");
    Assoc(out, KEYWORD, " ");
    Assoc(out, KEYWORD + " ", name);
    Assoc(out, KEYWORD + " " + name, " {");
    HeadingSplit(name, " {", []);
    assert KEYWORD + " " + name + " {" == Heading(name, " {");
  }

  lemma NormalBlankBrace(s: string, t: string, depth: nat, pending: bool, out: string)
    requires Solid(out) && t == " " + ("{" + s)
    ensures Pass1(t, depth, pending, out) == Pass1(s, depth + 1, false, out + " " + "{")
  {
    var w := " ";
    OneBlank(w);
    NormalSpace(w, "{" + s, depth, pending, out);
    NormalBrace(s, depth, pending, out + w);
  }

  lemma {:induction false} IndentIsSpace(n: nat, w: string)
    requires AllSpace(w) && !HasNewline(w)
    ensures AllSpace(Indent(n) + w) && !HasNewline(Indent(n) + w)
  {
    if n == 0 {
      assert Indent(n) + w == w;
    } else {
      assert (Indent(n) + w)[1..] == Indent(n - 1) + w;
      IndentIsSpace(n - 1, w);
    }
  }

  lemma LineBreakIsSpace(n: nat, lab: Option<Label>, w: string)
    requires w == "\n" + Indent(n) + LabelGap(lab)
    ensures AllSpace(w) && HasNewline(w) && w != []
  {
    GapIsBlank(n, lab);
    assert w[1..] == Indent(n) + LabelGap(lab);
  }

  /** Separator and label gap before a type. */
  lemma NormalGap(layout: Layout, first: bool, lab: Option<Label>, s: string, depth: nat, pending: bool, out: string)
    requires Starts(s) && depth > 0 && Solid(out) && (first ==> !pending)
    ensures Pass1(Separator(layout, first) + (LabelGap(lab) + s), depth, pending, out)
         == Pass1(s, depth, false, out + Gap(layout, first, lab, pending))
  {
    var g := LabelGap(lab);
    match layout
    case Inline(padding, before, after) =>
      if first {
        Assoc(Indent(padding), g, s);
        GapIsBlank(padding, lab);
        NormalBlanks(Indent(padding) + g, s, depth, false, out);
      } else {
        GapIsBlank(before, None);
        GapIsBlank(after, lab);
        assert Indent(before) + [] == Indent(before);
        Nest2(Indent(before), ",", Indent(after), g + s);
        Assoc(Indent(after), g, s);
        NormalCommaGap(Indent(before), Indent(after) + g, s, depth, pending, out);
      }
    case Multiline(indent, _) =>
      var w := Separator(layout, first) + g;
      LineBreakIsSpace(indent, lab, w);
      Assoc(Separator(layout, first), g, s);
      NormalSpace(w, s, depth, pending, out);
  }

  /** Blanks leave one space, if there are any. */
  lemma NormalBlanks(w: string, s: string, depth: nat, pending: bool, out: string)
    requires AllSpace(w) && !HasNewline(w) && s != [] && !Whitespace(s[0]) && Solid(out)
    ensures Pass1(w + s, depth, pending, out) == Pass1(s, depth, pending, out + OneSpaceFor(w))
  {
    if w == [] {
      assert w + s == s && out + OneSpaceFor(w) == out;
    } else {
      NormalSpace(w, s, depth, pending, out);
    }
  }

  lemma GapIsBlank(n: nat, lab: Option<Label>)
    ensures AllSpace(Indent(n) + LabelGap(lab)) && !HasNewline(Indent(n) + LabelGap(lab))
  {
    if lab.Some? {
      IndentIsSpace(lab.value.after, []);
      assert Indent(lab.value.after) + [] == LabelGap(lab);
    }
    IndentIsSpace(n, LabelGap(lab));
  }

  lemma NormalPadding(layout: Layout, s: string, depth: nat, pending: bool, out: string)
    requires Solid(out)
    ensures Pass1(Padding(layout) + ("}" + s), depth + 1, pending, out)
         == Pass1(s, depth, false, out + OneSpaceFor(Padding(layout)) + "}")
  {
    var b := "}" + s;
    match layout
    case Inline(padding, _, _) =>
      GapIsBlank(padding, None);
      assert Indent(padding) + LabelGap(None) == Indent(padding);
      NormalBlanks(Indent(padding), b, depth + 1, pending, out);
      NormalBrace(s, depth, pending, out + OneSpaceFor(Padding(layout)));
    case Multiline(indent, hanging) =>
      NormalHanging(indent, hanging, s, depth, pending, out);
  }

  lemma NormalHanging(indent: nat, hanging: bool, s: string, depth: nat, pending: bool, out: string)
    requires Solid(out)
    ensures var w := Padding(Multiline(indent, hanging));
            Pass1(w + ("}" + s), depth + 1, pending, out) == Pass1(s, depth, false, out + OneSpaceFor(w) + "}")
  {
    var w, b := Padding(Multiline(indent, hanging)), "}" + s;
    if hanging {
      assert w == "\n" + Indent(indent) + LabelGap(None);
      LineBreakIsSpace(indent, None, w);
      NormalLastBreak(w, s, depth, pending, out);
    } else {
      assert w + b == b && out + OneSpaceFor(w) == out;
      NormalBrace(s, depth, pending, out);
    }
  }

  lemma NormalLastBreak(w: string, s: string, depth: nat, pending: bool, out: string)
    requires AllSpace(w) && HasNewline(w) && w != [] && Solid(out)
    ensures Pass1(w + ("}" + s), depth + 1, pending, out) == Pass1(s, depth, false, out + OneSpaceFor(w) + "}")
  {
    NormalSpace(w, "}" + s, depth + 1, pending, out);
    NormalBrace(s, depth, pending, out + " ");
  }

  /** Blanks after a space leave nothing. */
  lemma NormalMoreBlanks(w: string, s: string, depth: nat, pending: bool, out: string)
    requires AllSpace(w) && !HasNewline(w) && s != [] && !Whitespace(s[0]) && out != [] && out[|out| - 1] == ' '
    ensures Pass1(w + s, depth, pending, out) == Pass1(s, depth, pending, out)
  {
    if w == [] {
      assert w + s == s;
    } else {
      SpanSpace(w, s);
      assert (w + s)[..|w|] == w && (w + s)[|w|..] == s;
      NoMoreSpace(w + s, |w|, depth, pending, out);
    }
  }

  lemma NoMoreSpace(t: string, k: nat, depth: nat, pending: bool, out: string)
    requires t != [] && Whitespace(t[0]) && k == Span(TypeStrings.Spaces, t) && !HasNewline(t[..k])
    requires out != [] && out[|out| - 1] == ' '
    ensures Pass1(t, depth, pending, out) == Pass1(t[k..], depth, pending, out)
  {
    assert out + "" == out;
  }

  /** A comma after a named field stays. */
  lemma NormalCommaKept(v: string, w: string, s: string, depth: nat, out: string)
    requires AllSpace(v) && !HasNewline(v) && AllSpace(w) && !HasNewline(w)
    requires Starts(s) && depth > 0 && Solid(out)
    ensures Pass1(v + ("," + (w + s)), depth, true, out) == Pass1(s, depth, false, out + (OneSpaceFor(v) + ("," + OneSpaceFor(w))))
  {
    var out' := out + OneSpaceFor(v);
    NormalBlanks(v, "," + (w + s), depth, true, out);
    NormalComma(w + s, depth, true, out');
    NormalBlanks(w, s, depth, false, out' + ",");
    Assoc(out, OneSpaceFor(v), "," + OneSpaceFor(w));
    Assoc(out', ",", OneSpaceFor(w));
  }

  /** A comma after a record goes. */
  lemma NormalCommaGone(v: string, w: string, s: string, depth: nat, out: string)
    requires AllSpace(v) && !HasNewline(v) && AllSpace(w) && !HasNewline(w)
    requires Starts(s) && depth > 0 && Solid(out)
    ensures Pass1(v + ("," + (w + s)), depth, false, out) == Pass1(s, depth, false, out + OneSpaceFor(v + w))
  {
    var out' := out + OneSpaceFor(v);
    NormalBlanks(v, "," + (w + s), depth, false, out);
    NormalComma(w + s, depth, false, out');
    assert out' + Comma(false) == out';
    if v == [] {
      assert out' == out && v + w == w;
      NormalBlanks(w, s, depth, false, out);
    } else {
      assert v + w != [];
      NormalMoreBlanks(w, s, depth, false, out');
    }
  }

  lemma NormalCommaGap(v: string, w: string, s: string, depth: nat, pending: bool, out: string)
    requires AllSpace(v) && !HasNewline(v) && AllSpace(w) && !HasNewline(w)
    requires Starts(s) && depth > 0 && Solid(out)
    ensures Pass1(v + ("," + (w + s)), depth, pending, out) == Pass1(s, depth, false, out + CommaGap(v, w, pending))
  {
    if pending {
      NormalCommaKept(v, w, s, depth, out);
    } else {
      NormalCommaGone(v, w, s, depth, out);
    }
  }

  lemma StrippedStarts(p: Printed, s: string)
    requires Valid(p)
    ensures Starts(Stripped(p) + s)
  {
    KeywordFacts();
    assert p.Record? ==> Stripped(p)[0] == KEYWORD[0];
  }

  lemma SpacedEnds(p: Printed, out: string)
    requires Valid(p)
    ensures Solid(out + Spaced(p)) && Spaced(p) != []
  {
    if p.Named? {
      NameEnds(p.name);
    }
  }

  lemma {:induction false} NameEnds(x: string)
    requires AllName(x) && x != []
    ensures NameChar(x[|x| - 1])
    decreases |x|
  {
    if |x| > 1 {
      NameEnds(x[1..]);
    }
  }

  lemma {:induction false} NormalType(p: Printed, s: string, depth: nat, pending: bool, out: string)
    requires Valid(p)
    ensures Pass1(Stripped(p) + s, depth, pending, out)
         == Pass1(s, depth, p.Named? && (pending || depth > 0), out + Spaced(p))
    decreases p
  {
    match p
    case Named(name) => NormalName(name, s, depth, pending, out);
    case Record(name, layout, fields) =>
      var h, body, body' := Heading(name, " {"), StrippedFields(fields, layout, true), SpacedFields(fields, layout, true, false);
      Closed(h, body, s);
      NormalHeading(name, body + ("}" + s), depth, pending, out);
      NormalBody(fields, layout, true, s, depth, false, out + h);
      Assoc(out, h, body');
      Assoc(out, h + body', "}");
  }

  lemma Closed(h: string, body: string, s: string)
    ensures h + body + "}" + s == h + (body + ("}" + s))
  {
  }

  lemma {:induction false} NormalBody(fs: Fields, layout: Layout, first: bool, s: string, depth: nat, pending: bool, out: string)
    requires ValidFields(fs) && Solid(out) && (first ==> !pending)
    ensures Pass1(StrippedFields(fs, layout, first) + ("}" + s), depth + 1, pending, out)
         == Pass1(s, depth, false, out + SpacedFields(fs, layout, first, pending) + "}")
    decreases fs
  {
    match fs
    case NoFields => NormalPadding(layout, s, depth, pending, out);
    case Field(lab, ty, rest) =>
      var more := StrippedFields(rest, layout, false) + ("}" + s);
      var g := Gap(layout, first, lab, pending);
      StrippedStarts(ty, more);
      Nest(Separator(layout, first), LabelGap(lab), Stripped(ty), StrippedFields(rest, layout, false), "}" + s);
      NormalGap(layout, first, lab, Stripped(ty) + more, depth + 1, pending, out);
      NormalType(ty, more, depth + 1, false, out + g);
      SpacedEnds(ty, out + g);
      NormalBody(rest, layout, false, s, depth, ty.Named?, out + g + Spaced(ty));
      var more' := SpacedFields(rest, layout, false, ty.Named?);
      Assoc(out, g, Spaced(ty) + more');
      Assoc(out + g, Spaced(ty), more');
  }

  // Spaces next to punctuation
  // ----------------------------------------------------------------------------

  lemma KeepHead(prev: Option<char>, c: char, t: string, s: string)
    requires c != ' ' && t == [c] + s
    ensures Pass2(prev, t) == [c] + Pass2(Some(c), s)
  {
    assert t[0] == c && t[1..] == s;
  }

  /** What precedes a string matters only if it starts with a space. */
  lemma PrevIrrelevant(prev: Option<char>, prev': Option<char>, s: string)
    requires s == [] || s[0] != ' '
    ensures Pass2(prev, s) == Pass2(prev', s)
  {
  }

  lemma {:induction false} KeepName(prev: Option<char>, x: string, s: string)
    requires AllName(x) && x != []
    ensures Pass2(prev, x + s) == x + Pass2(Some(x[|x| - 1]), s)
    decreases |x|
  {
    assert x == [x[0]] + x[1..];
    Assoc([x[0]], x[1..], s);
    KeepHead(prev, x[0], x + s, x[1..] + s);
    if |x| == 1 {
      assert x[1..] + s == s;
    } else {
      KeepName(Some(x[0]), x[1..], s);
      Assoc([x[0]], x[1..], Pass2(Some(x[|x| - 1]), s));
    }
  }

  lemma DropAfter(c: char, t: string, s: string)
    requires Punct(c) && t == " " + s && Starts(s)
    ensures Pass2(Some(c), t) == Pass2(None, s)
  {
    assert t[0] == ' ' && t[1..] == s;
    PrevIrrelevant(Some(' '), None, s);
  }

  lemma KeepBlank(c: char, t: string, s: string)
    requires !Punct(c) && t == " " + s && Starts(s)
    ensures Pass2(Some(c), t) == " " + Pass2(None, s)
  {
    assert t[0] == ' ' && t[1..] == s && t[1] == s[0];
    PrevIrrelevant(Some(' '), None, s);
  }

  lemma DropBeforeBrace(prev: Option<char>, t: string, s: string)
    requires t == " " + ("{" + s)
    ensures Pass2(prev, t) == "{" + Pass2(Some('{'), s)
  {
    assert t[0] == ' ' && t[1..] == "{" + s && t[1] == '{';
    KeepHead(Some(' '), '{', "{" + s, s);
  }

  lemma DropPadding(c: char, w: string, s: string)
    ensures Pass2(Some(c), OneSpaceFor(w) + ("}" + s)) == "}" + Pass2(Some('}'), s)
  {
    var b := "}" + s;
    KeepHead(Some(c), '}', b, s);
    KeepHead(Some(' '), '}', b, s);
    var t := OneSpaceFor(w) + b;
    if w == [] {
      assert t == b;
    } else {
      assert t[0] == ' ' && t[1..] == b && t[1] == '}';
    }
  }

  lemma KeepHeading(prev: Option<char>, name: string, s: string)
    requires ValidName(name)
    ensures Pass2(prev, Heading(name, " {") + s) == Heading(name, "{") + Pass2(Some('{'), s)
  {
    HeadingSplit(name, " {", s);
    HeadingSplit(name, "{", Pass2(Some('{'), s));
    var tail := name + (" {" + s);
    KeywordFacts();
    KeepName(prev, KEYWORD, " " + tail);
    KeepBlank('t', " " + tail, tail);
    KeepName(None, name, " {" + s);
    assert " {" + s == " " + ("{" + s);
    DropBeforeBrace(Some(name[|name| - 1]), " {" + s, s);
  }

  lemma DropAround(c: char, v: string, w: string, s: string)
    requires Starts(s)
    ensures Pass2(Some(c), OneSpaceFor(v) + ("," + (OneSpaceFor(w) + s))) == "," + Pass2(None, s)
  {
    var r := OneSpaceFor(w) + s;
    var t := OneSpaceFor(v) + ("," + r);
    PrevIrrelevant(Some(','), None, s);
    if w == [] {
      assert r == s;
    } else {
      DropAfter(',', r, s);
    }
    KeepHead(Some(c), ',', "," + r, r);
    KeepHead(Some(' '), ',', "," + r, r);
    if v == [] {
      assert t == "," + r;
    } else {
      assert t[0] == ' ' && t[1..] == "," + r && t[1] == ',';
    }
  }

  lemma KeepGap(layout: Layout, first: bool, lab: Option<Label>, pending: bool, c: char, s: string)
    requires Starts(s) && (first ==> !pending) && (!pending ==> Punct(c))
    ensures Pass2(Some(c), Gap(layout, first, lab, pending) + s) == Comma(pending) + Pass2(None, s)
  {
    var g := Gap(layout, first, lab, pending);
    PrevIrrelevant(Some(c), None, s);
    if pending {
      match layout
      case Inline(_, before, after) =>
        var v, w := Indent(before), Indent(after) + LabelGap(lab);
        Nest2(OneSpaceFor(v), ",", OneSpaceFor(w), s);
        DropAround(c, v, w, s);
      case Multiline(_, _) =>
        assert OneSpaceFor([]) + ("," + (OneSpaceFor([]) + s)) == g + s;
        DropAround(c, [], [], s);
    } else {
      assert Comma(pending) + Pass2(None, s) == Pass2(None, s);
      if g == [] {
        assert g + s == s;
      } else {
        assert g == " ";
        DropAfter(c, g + s, s);
      }
    }
  }

  /** The last character of a printed type. */
  function LastChar(p: Printed): char
    requires Valid(p)
  {
    if p.Named? then p.name[|p.name| - 1] else '}'
  }

  lemma SpacedStarts(p: Printed, s: string)
    requires Valid(p)
    ensures Starts(Spaced(p) + s)
  {
    KeywordFacts();
    assert p.Record? ==> Spaced(p)[0] == KEYWORD[0];
  }

  lemma {:induction false} KeepType(prev: Option<char>, p: Printed, s: string)
    requires Valid(p)
    ensures Pass2(prev, Spaced(p) + s) == Canon(Erase(p)) + Pass2(Some(LastChar(p)), s)
    decreases p
  {
    match p
    case Named(name) => KeepName(prev, name, s);
    case Record(name, layout, fields) =>
      var body, body' := SpacedFields(fields, layout, true, false), CanonFields(EraseFields(fields), false);
      Closed(Heading(name, " {"), body, s);
      KeepHeading(prev, name, body + ("}" + s));
      KeepBody('{', fields, layout, true, false, s);
      Closed(Heading(name, "{"), body', Pass2(Some('}'), s));
  }

  lemma {:induction false} KeepBody(c: char, fs: Fields, layout: Layout, first: bool, pending: bool, s: string)
    requires ValidFields(fs) && (first ==> !pending) && (!pending ==> Punct(c))
    ensures Pass2(Some(c), SpacedFields(fs, layout, first, pending) + ("}" + s))
         == CanonFields(EraseFields(fs), pending) + ("}" + Pass2(Some('}'), s))
    decreases fs
  {
    match fs
    case NoFields =>
      DropPadding(c, Padding(layout), s);
      assert CanonFields(EraseFields(fs), pending) + ("}" + Pass2(Some('}'), s)) == "}" + Pass2(Some('}'), s);
    case Field(lab, ty, rest) =>
      var more, more' := SpacedFields(rest, layout, false, ty.Named?), CanonFields(EraseFields(rest), ty.Named?);
      var g := Gap(layout, first, lab, pending);
      Assoc(g, Spaced(ty) + more, "}" + s);
      Assoc(Spaced(ty), more, "}" + s);
      SpacedStarts(ty, more + ("}" + s));
      KeepGap(layout, first, lab, pending, c, Spaced(ty) + (more + ("}" + s)));
      KeepType(None, ty, more + ("}" + s));
      KeepBody(LastChar(ty), rest, layout, false, ty.Named?, s);
      var e := "}" + Pass2(Some('}'), s);
      Assoc(Canon(Erase(ty)), more', e);
      Assoc(Comma(pending), Canon(Erase(ty)) + more', e);
  }

  // The canonical form keeps the type and nothing else
  // ----------------------------------------------------------------------------

  lemma CanonEnds(p: Printed)
    requires Valid(p)
    ensures TrimEnd(Canon(Erase(p))) == Canon(Erase(p))
  {
    if p.Named? {
      NameEnds(p.name);
    }
  }

  lemma StripWhole(p: Printed)
    requires Valid(p)
    ensures Strip(Print(p), 0, false) == Stripped(p)
  {
    StripType(p, [], 0, false);
    assert Print(p) + [] == Print(p) && Stripped(p) + [] == Stripped(p);
  }

  lemma NormalWhole(p: Printed)
    requires Valid(p)
    ensures Pass1(Stripped(p), 0, false, []) == Spaced(p)
  {
    NormalType(p, [], 0, false, []);
    assert Stripped(p) + [] == Stripped(p) && [] + Spaced(p) == Spaced(p);
  }

  lemma KeepWhole(p: Printed)
    requires Valid(p)
    ensures Pass2(None, Spaced(p)) == Canon(Erase(p))
  {
    KeepType(None, p, []);
    assert Spaced(p) + [] == Spaced(p) && Canon(Erase(p)) + [] == Canon(Erase(p));
  }

  /** Canonicalising a printed type gives the canonical form of the type: labels and layout are gone. */
  lemma CanonicalIsCanon(p: Printed)
    requires Valid(p)
    ensures Canonical(Print(p)) == Canon(Erase(p))
  {
    StripWhole(p);
    NormalWhole(p);
    KeepWhole(p);
    CanonEnds(p);
  }

  predicate ValidTy(t: Ty) {
    match t
    case NamedTy(name) => ValidName(name)
    case RecordTy(name, fields) => ValidName(name) && ValidTys(fields)
  }

  predicate ValidTys(ts: Tys) {
    match ts
    case Nil => true
    case Cons(head, tail) => ValidTy(head) && ValidTys(tail)
  }

  lemma {:induction false} EraseValid(p: Printed)
    requires Valid(p)
    ensures ValidTy(Erase(p))
    decreases p
  {
    if p.Record? {
      EraseFieldsValid(p.fields);
    }
  }

  lemma {:induction false} EraseFieldsValid(fs: Fields)
    requires ValidFields(fs)
    ensures ValidTys(EraseFields(fs))
    decreases fs
  {
    if fs.Field? {
      EraseValid(fs.ty);
      EraseFieldsValid(fs.rest);
    }
  }

  /** What may follow a name in a canonical form. */
  predicate EndsName(s: string) { s == [] || s[0] == ',' || s[0] == '}' }

  lemma {:induction false} SameName(x: string, y: string, s: string, s': string)
    requires AllName(x) && AllName(y) && x + s == y + s'
    requires (s == [] || !NameChar(s[0])) && (s' == [] || !NameChar(s'[0]))
    ensures x == y && s == s'
    decreases |x|
  {
    if x == [] || y == [] {
      assert x == [] ==> x + s == s;
      assert y == [] ==> y + s' == s';
    } else {
      assert (x + s)[0] == x[0] && (y + s')[0] == y[0];
      assert (x + s)[1..] == x[1..] + s && (y + s')[1..] == y[1..] + s';
      SameName(x[1..], y[1..], s, s');
      assert x == [x[0]] + x[1..] && y == [y[0]] + y[1..];
    }
  }

  lemma NameIsNotRecord(x: string, s: string, tail: string)
    requires AllName(x) && EndsName(s)
    ensures x + s != KEYWORD + (" " + tail)
  {
    if x + s == KEYWORD + (" " + tail) {
      KeywordFacts();
      SameName(x, KEYWORD, s, " " + tail);
      assert false;
    }
  }

  /** Canonical forms are uniquely readable. */
  lemma {:induction false} ReadType(a: Ty, b: Ty, s: string, s': string)
    requires ValidTy(a) && ValidTy(b) && Canon(a) + s == Canon(b) + s'
    requires (a.NamedTy? ==> EndsName(s)) && (b.NamedTy? ==> EndsName(s'))
    ensures a == b && s == s'
    decreases a
  {
    if a.NamedTy? && b.NamedTy? {
      SameName(a.name, b.name, s, s');
    } else if a.NamedTy? {
      Closed(Heading(b.name, "{"), CanonFields(b.fields, false), s');
      var rest := CanonFields(b.fields, false) + ("}" + s');
      HeadingSplit(b.name, "{", rest);
      NameIsNotRecord(a.name, s, b.name + ("{" + rest));
    } else if b.NamedTy? {
      Closed(Heading(a.name, "{"), CanonFields(a.fields, false), s);
      var rest := CanonFields(a.fields, false) + ("}" + s);
      HeadingSplit(a.name, "{", rest);
      NameIsNotRecord(b.name, s', a.name + ("{" + rest));
    } else {
      var body, body' := CanonFields(a.fields, false), CanonFields(b.fields, false);
      Closed(Heading(a.name, "{"), body, s);
      Closed(Heading(b.name, "{"), body', s');
      SameHeading(a.name, b.name, body + ("}" + s), body' + ("}" + s'));
      ReadFields(a.fields, b.fields, false, s, s');
    }
  }

  lemma SameHeading(n: string, n': string, s: string, s': string)
    requires AllName(n) && AllName(n') && Heading(n, "{") + s == Heading(n', "{") + s'
    ensures n == n' && s == s'
  {
    HeadingSplit(n, "{", s);
    HeadingSplit(n', "{", s');
    var t, t' := n + ("{" + s), n' + ("{" + s');
    var k := |KEYWORD| + 1;
    assert (KEYWORD + (" " + t))[k..] == t && (KEYWORD + (" " + t'))[k..] == t';
    SameName(n, n', "{" + s, "{" + s');
    assert ("{" + s)[1..] == s && ("{" + s')[1..] == s';
  }

  lemma FieldsEndName(ts: Tys, s: string)
    ensures EndsName(CanonFields(ts, true) + ("}" + s))
  {
    assert ts.Nil? ==> CanonFields(ts, true) + ("}" + s) == "}" + s;
  }

  lemma CanonStarts(t: Ty, s: string)
    requires ValidTy(t)
    ensures Starts(Canon(t) + s)
  {
    KeywordFacts();
    assert t.RecordTy? ==> Canon(t)[0] == KEYWORD[0];
  }

  /** A field list that is not empty does not start with a closing brace. */
  lemma FieldsStart(ts: Tys, comma: bool, s: string)
    requires ValidTys(ts) && ts.Cons?
    ensures var t := CanonFields(ts, comma) + s; t != [] && t[0] != '}'
  {
    CanonStarts(ts.head, CanonFields(ts.tail, ts.head.NamedTy?));
    assert (CanonFields(ts, comma) + s)[0] == CanonFields(ts, comma)[0];
  }

  lemma {:induction false} ReadFields(ts: Tys, us: Tys, comma: bool, s: string, s': string)
    requires ValidTys(ts) && ValidTys(us)
    requires CanonFields(ts, comma) + ("}" + s) == CanonFields(us, comma) + ("}" + s')
    ensures ts == us && s == s'
    decreases ts
  {
    if ts.Nil? && us.Nil? {
      assert CanonFields(ts, comma) + ("}" + s) == "}" + s && CanonFields(us, comma) + ("}" + s') == "}" + s';
      assert ("}" + s)[1..] == s && ("}" + s')[1..] == s';
    } else if ts.Nil? {
      FieldsStart(us, comma, "}" + s');
    } else if us.Nil? {
      FieldsStart(ts, comma, "}" + s);
    } else {
      var more, more' := CanonFields(ts.tail, ts.head.NamedTy?), CanonFields(us.tail, us.head.NamedTy?);
      DropComma(comma, Canon(ts.head), more, "}" + s);
      DropComma(comma, Canon(us.head), more', "}" + s');
      if ts.head.NamedTy? { FieldsEndName(ts.tail, s); }
      if us.head.NamedTy? { FieldsEndName(us.tail, s'); }
      ReadType(ts.head, us.head, more + ("}" + s), more' + ("}" + s'));
      ReadFields(ts.tail, us.tail, ts.head.NamedTy?, s, s');
    }
  }

  lemma DropComma(comma: bool, a: string, b: string, s: string)
    ensures (Comma(comma) + (a + b) + s)[|Comma(comma)|..] == a + (b + s)
  {
    Assoc(Comma(comma), a + b, s);
    Assoc(a, b, s);
    assert (Comma(comma) + (a + (b + s)))[|Comma(comma)|..] == a + (b + s);
  }

  /** Two printed types have the same canonical string exactly when they are the same type: they may
      differ in labels and layout, but not in names, field types, number or order. */
  lemma CanonicalDecidesEquality(p: Printed, q: Printed)
    requires Valid(p) && Valid(q)
    ensures Canonical(Print(p)) == Canonical(Print(q)) <==> Erase(p) == Erase(q)
  {
    CanonicalIsCanon(p);
    CanonicalIsCanon(q);
    EraseValid(p);
    EraseValid(q);
    if Canon(Erase(p)) == Canon(Erase(q)) {
      assert Canon(Erase(p)) + [] == Canon(Erase(q)) + [];
      ReadType(Erase(p), Erase(q), [], []);
    }
  }
}
