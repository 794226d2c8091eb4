/** Canonical form of pretty-printed types: struct field labels and layout are dropped. */
module TypeStrings {
  import opened Wrappers

  // Characters (ASCII)
  // ----------------------------------------------------------------------------

  predicate Alphabetic(c: char) { 'a' <= c <= 'z' || 'A' <= c <= 'Z' }
  predicate Alphanumeric(c: char) { Alphabetic(c) || '0' <= c <= '9' }
  predicate IdentStart(c: char) { Alphabetic(c) || c == '_' }
  predicate IdentChar(c: char) { Alphanumeric(c) || c == '_' || c == '-' }
  predicate Blank(c: char) { c == ' ' || c == '\t' }
  predicate Newline(c: char) { c == '\n' || c == '\r' }
  predicate Whitespace(c: char) { Blank(c) || Newline(c) }
  predicate Punct(c: char) { c == '{' || c == '}' || c == '(' || c == ')' || c == ',' || c == ':' || c == '<' || c == '>' }

  /** The classes by their members. */
  lemma CharacterClasses(c: char)
    ensures IdentStart(c) <==> c in "abcdefghijklmnopqrstuvwxyz" || c in "ABCDEFGHIJKLMNOPQRSTUVWXYZ" || c == '_'
    ensures IdentChar(c) <==> IdentStart(c) || c in "0123456789" || c == '-'
    ensures Whitespace(c) <==> c in " \t\n\r"
    ensures Punct(c) <==> c in "{}(),:<>"
  {
    LowerIs(c);
    UpperIs(c);
    DigitIs(c);
  }

  lemma LowerIs(c: char)
    ensures 'a' <= c <= 'z' <==> c in "abcdefghijklmnopqrstuvwxyz"
  {
    if 'a' <= c <= 'z' {
      assert "abcdefghijklmnopqrstuvwxyz"[c as int - 97] == c;
    }
  }

  lemma UpperIs(c: char)
    ensures 'A' <= c <= 'Z' <==> c in "ABCDEFGHIJKLMNOPQRSTUVWXYZ"
  {
    if 'A' <= c <= 'Z' {
      assert "ABCDEFGHIJKLMNOPQRSTUVWXYZ"[c as int - 65] == c;
    }
  }

  lemma DigitIs(c: char)
    ensures '0' <= c <= '9' <==> c in "0123456789"
  {
    if '0' <= c <= '9' {
      assert "0123456789"[c as int - '0' as int] == c;
    }
  }

  datatype Class = Identifier | Blanks | Spaces {
    predicate Has(c: char) {
      match this
      case Identifier => IdentChar(c)
      case Blanks => Blank(c)
      case Spaces => Whitespace(c)
    }
  }

  /** Length of the longest prefix of s in a class of characters. */
  function Span(p: Class, s: string): (k: nat)
    ensures k <= |s|
  {
    if s == [] || !p.Has(s[0]) then 0 else 1 + Span(p, s[1..])
  }

  // Removing labels
  // ----------------------------------------------------------------------------

  /** s starts with a colon that is not part of a double colon. */
  predicate SingleColon(s: string) {
    s != [] && s[0] == ':' && (|s| == 1 || s[1] != ':')
  }

  /** One step on a nonempty string: what is emitted, how much is consumed, and the new state. */
  datatype Move = Move(emitted: string, consumed: nat, depth: nat, flag: bool)

  /** At the start of a field: a label goes with the colon that ends it, another identifier stays. */
  function LabelStep(s: string): (r: (string, nat))
    requires s != []
    ensures 1 <= r.1 <= |s|
  {
    var k := 1 + Span(Identifier, s[1..]);
    var j := k + Span(Blanks, s[k..]);
    if SingleColon(s[j..]) then ([], j + 1) else (s[..k], k)
  }

  function StripStep(s: string, depth: nat, start: bool): (m: Move)
    requires s != []
    ensures 1 <= m.consumed <= |s|
  {
    var c := s[0];
    if c == '{' then Move("{", 1, depth + 1, true)
    else if c == '}' then Move("}", 1, if depth > 0 then depth - 1 else 0, false)
    else if depth > 0 && (c == ',' || Newline(c)) then Move([c], 1, depth, true)
    else if depth > 0 && start && IdentStart(c) then Move(LabelStep(s).0, LabelStep(s).1, depth, false)
    else Move([c], 1, depth, start && (depth == 0 || Whitespace(c)))
  }

  function Strip(s: string, depth: nat, start: bool): string
    decreases |s|
  {
    if s == [] then []
    else
      var m := StripStep(s, depth, start);
      m.emitted + Strip(s[m.consumed..], m.depth, m.flag)
  }

  method SpanFrom(p: Class, s: string, i: nat) returns (k: nat)
    requires i <= |s|
    ensures i <= k <= |s| && k == i + Span(p, s[i..])
  {
    k := i;
    while k < |s| && p.Has(s[k])
      invariant i <= k <= |s| && Span(p, s[i..]) == (k - i) + Span(p, s[k..])
    {
      assert s[k..][1..] == s[k + 1..];
      k := k + 1;
    }
  }

  /** The state of a scan that has emitted out and stands at position i. */
  ghost predicate Stripped(value: string, i: nat, depth: nat, start: bool, out: string) {
    i <= |value| && Strip(value, 0, false) == out + Strip(value[i..], depth, start)
  }

  lemma StrippedStep(value: string, i: nat, depth: nat, start: bool, out: string)
    requires i < |value| && Stripped(value, i, depth, start, out)
    ensures var m := StripStep(value[i..], depth, start);
            Stripped(value, i + m.consumed, m.depth, m.flag, out + m.emitted)
  {
    var m := StripStep(value[i..], depth, start);
    assert value[i..][m.consumed..] == value[i + m.consumed..];
    Assoc(out, m.emitted, Strip(value[i + m.consumed..], m.depth, m.flag));
  }

  method ScanLabel(s: string) returns (emitted: string, next: nat)
    requires s != []
    ensures (emitted, next) == LabelStep(s)
  {
    var k := SpanFrom(Identifier, s, 1);
    var j := SpanFrom(Blanks, s, k);
    LabelStepIs(s, k, j);
    if j < |s| && s[j] == ':' && (j + 1 == |s| || s[j + 1] != ':') {
      return [], j + 1;
    }
    return s[..k], k;
  }

  lemma LabelStepIs(s: string, k: nat, j: nat)
    requires s != [] && k == 1 + Span(Identifier, s[1..]) && j == k + Span(Blanks, s[k..])
    ensures LabelStep(s) == if j < |s| && s[j] == ':' && (j + 1 == |s| || s[j + 1] != ':') then ([], j + 1) else (s[..k], k)
  {
  }

  /** The branch taken at position i. */
  method StripAt(value: string, i: nat, depth: nat, start: bool) returns (m: Move)
    requires i < |value|
    ensures m == StripStep(value[i..], depth, start)
  {
    var c := value[i];
    assert value[i..][0] == c;
    if c == '{' {
      return Move("{", 1, depth + 1, true);
    }
    if c == '}' {
      return Move("}", 1, if depth > 0 then depth - 1 else depth, false);
    }
    if depth > 0 && (c == ',' || Newline(c)) {
      return Move([c], 1, depth, true);
    }
    if depth > 0 && start && IdentStart(c) {
      var emitted, next := ScanLabel(value[i..]);
      return Move(emitted, next, depth, false);
    }
    return Move([c], 1, depth, start && (depth == 0 || Whitespace(c)));
  }

  method StripFieldLabels(value: string) returns (out: string)
    ensures out == Strip(value, 0, false)
  {
    out := [];
    var i, depth, start := 0, 0, false;
    while i < |value|
      invariant 0 <= i <= |value| && depth >= 0 && Stripped(value, i, depth, start, out)
    {
      var m := StripAt(value, i, depth, start);
      StrippedStep(value, i, depth, start, out);
      out, i, depth, start := out + m.emitted, i + m.consumed, m.depth, m.flag;
    }
  }

  // Normalising separators and spaces
  // ----------------------------------------------------------------------------

  function HasNewline(s: string): bool {
    s != [] && (Newline(s[0]) || HasNewline(s[1..]))
  }

  /** A run of spaces is kept as one, unless the output is empty or already ends with one. */
  function OneSpace(out: string): string {
    if out == [] || out[|out| - 1] == ' ' then "" else " "
  }

  /** A newline between two fields counts as a separator. */
  function SpaceStep(s: string, depth: nat, pending: bool, out: string): (m: Move)
    requires s != [] && Whitespace(s[0])
    ensures 1 <= m.consumed <= |s|
  {
    var k := Span(Spaces, s);
    if depth > 0 && HasNewline(s[..k]) && pending && k < |s| && s[k] != '}' && s[k] != ',' then Move(",", k, depth, false)
    else Move(OneSpace(out), k, depth, pending)
  }

  function NormalStep(s: string, depth: nat, pending: bool, out: string): (m: Move)
    requires s != []
    ensures 1 <= m.consumed <= |s|
  {
    var c := s[0];
    if c == '{' then Move("{", 1, depth + 1, false)
    else if c == '}' then Move("}", 1, if depth > 0 then depth - 1 else 0, false)
    else if c == ',' && depth > 0 then Move(if pending then "," else "", 1, depth, false)
    else if Whitespace(c) then SpaceStep(s, depth, pending, out)
    else Move([c], 1, depth, pending || depth > 0)
  }

  function Pass1(s: string, depth: nat, pending: bool, out: string): string
    decreases |s|
  {
    if s == [] then out
    else
      var m := NormalStep(s, depth, pending, out);
      Pass1(s[m.consumed..], m.depth, m.flag, out + m.emitted)
  }

  predicate Dropped(prev: Option<char>, s: string)
    requires s != []
  {
    s[0] == ' ' && ((prev.Some? && Punct(prev.value)) || (|s| > 1 && Punct(s[1])))
  }

  /** Drops spaces next to punctuation. */
  function Pass2(prev: Option<char>, s: string): string
    decreases |s|
  {
    if s == [] then [] else (if Dropped(prev, s) then [] else [s[0]]) + Pass2(Some(s[0]), s[1..])
  }

  function TrimEnd(s: string): string {
    if s != [] && Whitespace(s[|s| - 1]) then TrimEnd(s[..|s| - 1]) else s
  }

  function Canonical(value: string): string {
    TrimEnd(Pass2(None, Pass1(Strip(value, 0, false), 0, false, [])))
  }

  method ScanSpaces(s: string, depth: nat, pending: bool, out: string) returns (m: Move)
    requires s != [] && Whitespace(s[0])
    ensures m == SpaceStep(s, depth, pending, out)
  {
    var k, hasNewline := 0, false;
    while k < |s| && Whitespace(s[k])
      invariant 0 <= k <= |s| && Span(Spaces, s) == k + Span(Spaces, s[k..])
      invariant hasNewline == HasNewline(s[..k])
    {
      assert s[k..][1..] == s[k + 1..] && s[..k + 1] == s[..k] + [s[k]];
      NewlineSnoc(s[..k], s[k]);
      hasNewline := hasNewline || Newline(s[k]);
      k := k + 1;
    }
    if depth > 0 && hasNewline && pending && k < |s| && s[k] != '}' && s[k] != ',' {
      return Move(",", k, depth, false);
    }
    return Move(OneSpace(out), k, depth, pending);
  }

  lemma {:induction false} NewlineSnoc(s: string, c: char)
    ensures HasNewline(s + [c]) == (HasNewline(s) || Newline(c))
  {
    if s != [] {
      assert (s + [c])[1..] == s[1..] + [c];
      NewlineSnoc(s[1..], c);
    }
  }

  method NormalAt(value: string, i: nat, depth: nat, pending: bool, out: string) returns (m: Move)
    requires i < |value|
    ensures m == NormalStep(value[i..], depth, pending, out)
  {
    var c := value[i];
    assert value[i..][0] == c;
    if c == '{' {
      return Move("{", 1, depth + 1, false);
    }
    if c == '}' {
      return Move("}", 1, if depth > 0 then depth - 1 else depth, false);
    }
    if c == ',' && depth > 0 {
      return Move(if pending then "," else "", 1, depth, false);
    }
    if Whitespace(c) {
      m := ScanSpaces(value[i..], depth, pending, out);
      return;
    }
    return Move([c], 1, depth, pending || depth > 0);
  }

  method CollapseSeparators(value: string) returns (out: string)
    ensures out == Pass1(value, 0, false, [])
  {
    out := [];
    var i, depth, pending := 0, 0, false;
    while i < |value|
      invariant 0 <= i <= |value| && depth >= 0
      invariant Pass1(value, 0, false, []) == Pass1(value[i..], depth, pending, out)
    {
      var m := NormalAt(value, i, depth, pending, out);
      assert value[i..][m.consumed..] == value[i + m.consumed..];
      out, i, depth, pending := out + m.emitted, i + m.consumed, m.depth, m.flag;
    }
  }

  /** The character before position i. */
  function Before(s: string, i: nat): Option<char>
    requires i <= |s|
  {
    if i == 0 then None else Some(s[i - 1])
  }

  predicate DropAt(s: string, i: nat)
    requires i < |s|
  {
    s[i] == ' ' && ((i > 0 && Punct(s[i - 1])) || (i + 1 < |s| && Punct(s[i + 1])))
  }

  lemma Pass2Step(s: string, i: nat)
    requires i < |s|
    ensures Pass2(Before(s, i), s[i..]) == (if DropAt(s, i) then [] else [s[i]]) + Pass2(Before(s, i + 1), s[i + 1..])
  {
    assert s[i..][1..] == s[i + 1..];
  }

  method DropSpaces(s: string) returns (out: string)
    ensures out == Pass2(None, s)
  {
    out := [];
    for i := 0 to |s|
      invariant Pass2(None, s) == out + Pass2(Before(s, i), s[i..])
    {
      Pass2Step(s, i);
      var kept := if DropAt(s, i) then [] else [s[i]];
      Assoc(out, kept, Pass2(Before(s, i + 1), s[i + 1..]));
      out := out + kept;
    }
  }

  method Normalize(value: string) returns (out: string)
    ensures out == TrimEnd(Pass2(None, Pass1(value, 0, false, [])))
  {
    var collapsed := CollapseSeparators(value);
    var spaced := DropSpaces(collapsed);
    out := Trim(spaced);
  }

  method Trim(s: string) returns (out: string)
    ensures out == TrimEnd(s)
  {
    var n := |s|;
    assert s[..n] == s;
    while n > 0 && Whitespace(s[n - 1])
      invariant 0 <= n <= |s| && TrimEnd(s) == TrimEnd(s[..n])
    {
      assert s[..n][..n - 1] == s[..n - 1];
      n := n - 1;
    }
    out := s[..n];
  }

  method CanonicalizeTypeString(value: string) returns (out: string)
    ensures out == Canonical(value)
  {
    var stripped := StripFieldLabels(value);
    out := Normalize(stripped);
  }
}
