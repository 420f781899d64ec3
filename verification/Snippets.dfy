/** The snippet printer: a hand-written JSON escaper and an object printer that
    appends a comma after every item and erases the last one. */
module Snippets {
  import opened Wrappers
  import opened Text

  /** Text is bytes here: character codes below 256. A byte from 128 on is negative
      where `char` is signed. */
  predicate Dropped(c: char, signedChar: bool) {
    c as int < 32 || (signedChar && c as int >= 128)
  }

  // ---------------------------------------------------------------- the escaper

  function Escape(s: string, signedChar: bool): string {
    if s == "" then ""
    else if Dropped(s[0], signedChar) then Escape(s[1..], signedChar)
    else if s[0] == '"' then ['\\', '"'] + Escape(s[1..], signedChar)
    else if s[0] == '\\' then
      if |s| > 1 && s[1] == '"' then ['\\', '"'] + Escape(s[2..], signedChar)
      else ['\\', '\\'] + Escape(s[1..], signedChar)
    else [s[0]] + Escape(s[1..], signedChar)
  }

  /** A quote that came already escaped counts as one quote. */
  function Collapse(s: string): string {
    if s == "" then ""
    else if s[0] == '\\' && |s| > 1 && s[1] == '"' then ['"'] + Collapse(s[2..])
    else [s[0]] + Collapse(s[1..])
  }

  /** The characters a reader is meant to see: from the space on, and below 128 where
      `char` is signed. */
  function Visible(s: string, signedChar: bool): string {
    if s == "" then ""
    else
      (if s[0] as int >= 32 && !(signedChar && s[0] as int >= 128) then [s[0]] else [])
      + Visible(s[1..], signedChar)
  }

  /** What the printed text should say. */
  function Clean(s: string, signedChar: bool): string {
    Visible(Collapse(s), signedChar)
  }

  // ---------------------------------------------------------------- JSON, RFC 8259

  /** Section 3, without numbers and literals. */
  datatype Value = Str(text: string) | Arr(items: seq<Value>) | Obj(members: seq<Member>)
  datatype Member = Member(name: string, value: Value)

  datatype Parsed<+T> = Parsed(result: T, rest: string)

  /** Section 7, the two-character escapes. */
  function Unescape(c: char): Option<char> {
    if c == '"' || c == '\\' || c == '/' then Some(c)
    else if c == 'b' then Some(8 as char)
    else if c == 'f' then Some(12 as char)
    else if c == 'n' then Some(10 as char)
    else if c == 'r' then Some(13 as char)
    else if c == 't' then Some(9 as char)
    else None
  }

  function Prepend(c: char, p: Option<Parsed<string>>): Option<Parsed<string>> {
    if p.None? then None else Some(Parsed([c] + p.value.result, p.value.rest))
  }

  /** Section 7: the characters of a string up to its closing quote. */
  function ParseChars(s: string): (r: Option<Parsed<string>>)
    ensures r.Some? ==> |r.value.rest| < |s|
  {
    if s == "" || s[0] as int < 32 then None
    else if s[0] == '"' then Some(Parsed("", s[1..]))
    else if s[0] == '\\' then
      if |s| == 1 || Unescape(s[1]).None? then None
      else Prepend(Unescape(s[1]).value, ParseChars(s[2..]))
    else Prepend(s[0], ParseChars(s[1..]))
  }

  /** Section 2: insignificant whitespace. */
  function SkipSpace(s: string): (r: string)
    ensures |r| <= |s|
  {
    if s != "" && (s[0] == ' ' || s[0] as int == 9 || s[0] as int == 10 || s[0] as int == 13)
    then SkipSpace(s[1..]) else s
  }

  function ParseValue(s: string): (r: Option<Parsed<Value>>)
    ensures r.Some? ==> |r.value.rest| < |s|
    decreases |s|, 0
  {
    var t := SkipSpace(s);
    if t == "" then None
    else if t[0] == '"' then
      var p := ParseChars(t[1..]);
      if p.None? then None else Some(Parsed(Str(p.value.result), p.value.rest))
    else if t[0] == '[' then
      var u := SkipSpace(t[1..]);
      if u != "" && u[0] == ']' then Some(Parsed(Arr([]), u[1..]))
      else
        var p := ParseItems(u);
        if p.None? then None else Some(Parsed(Arr(p.value.result), p.value.rest))
    else if t[0] == '{' then
      var u := SkipSpace(t[1..]);
      if u != "" && u[0] == '}' then Some(Parsed(Obj([]), u[1..]))
      else
        var p := ParseMembers(u);
        if p.None? then None else Some(Parsed(Obj(p.value.result), p.value.rest))
    else None
  }

  /** Section 5: one value or more, separated by commas, up to the bracket. */
  function ParseItems(s: string): (r: Option<Parsed<seq<Value>>>)
    ensures r.Some? ==> |r.value.rest| < |s|
    decreases |s|, 1
  {
    var p := ParseValue(s);
    if p.None? then None
    else
      var t := SkipSpace(p.value.rest);
      if t == "" then None
      else if t[0] == ']' then Some(Parsed([p.value.result], t[1..]))
      else if t[0] == ',' then
        var q := ParseItems(t[1..]);
        if q.None? then None else Some(Parsed([p.value.result] + q.value.result, q.value.rest))
      else None
  }

  /** Section 4: a name, a colon, a value. */
  function ParseMember(s: string): (r: Option<Parsed<Member>>)
    ensures r.Some? ==> |r.value.rest| < |s|
    decreases |s|, 1
  {
    var t := SkipSpace(s);
    if t == "" || t[0] != '"' then None
    else
      var name := ParseChars(t[1..]);
      if name.None? then None
      else
        var u := SkipSpace(name.value.rest);
        if u == "" || u[0] != ':' then None
        else
          var v := ParseValue(u[1..]);
          if v.None? then None
          else Some(Parsed(Member(name.value.result, v.value.result), v.value.rest))
  }

  function ParseMembers(s: string): (r: Option<Parsed<seq<Member>>>)
    ensures r.Some? ==> |r.value.rest| < |s|
    decreases |s|, 2
  {
    var p := ParseMember(s);
    if p.None? then None
    else
      var t := SkipSpace(p.value.rest);
      if t == "" then None
      else if t[0] == '}' then Some(Parsed([p.value.result], t[1..]))
      else if t[0] == ',' then
        var q := ParseMembers(t[1..]);
        if q.None? then None else Some(Parsed([p.value.result] + q.value.result, q.value.rest))
      else None
  }

  /** Section 2: a JSON text is one value with space around it. */
  function ParseText(s: string): Option<Value> {
    var p := ParseValue(s);
    if p.Some? && SkipSpace(p.value.rest) == "" then Some(p.value.result) else None
  }

  // ---------------------------------------------------------------- the escaper is right

  lemma ReadPair(c: char, t: string)
    requires c == '"' || c == '\\'
    ensures ParseChars(['\\', c] + t) == Prepend(c, ParseChars(t))
  {
    assert (['\\', c] + t)[2..] == t;
  }

  /** The other escapes the reader knows; it takes none besides. */
  lemma ReadShort(c: char, code: int, t: string)
    requires c != '"' && c != '\\'
    ensures (c, code) in {('/', 47), ('b', 8), ('f', 12), ('n', 10), ('r', 13), ('t', 9)} ==>
              ParseChars(['\\', c] + t) == Prepend(code as char, ParseChars(t))
    ensures c !in {'/', 'b', 'f', 'n', 'r', 't'} ==> ParseChars(['\\', c] + t) == None
  {
    assert (['\\', c] + t)[2..] == t;
  }

  lemma ReadPlain(c: char, t: string)
    requires c as int >= 32 && c != '"' && c != '\\'
    ensures ParseChars([c] + t) == Prepend(c, ParseChars(t))
  {
    assert ([c] + t)[1..] == t;
  }

  lemma CleanFirst(s: string, signedChar: bool)
    requires s != ""
    ensures Clean(s, signedChar) ==
            if s[0] == '\\' && |s| > 1 && s[1] == '"' then ['"'] + Clean(s[2..], signedChar)
            else if s[0] as int >= 32 && !(signedChar && s[0] as int >= 128) then [s[0]] + Clean(s[1..], signedChar)
            else Clean(s[1..], signedChar)
  {
    var pair := s[0] == '\\' && |s| > 1 && s[1] == '"';
    var c := if pair then '"' else s[0];
    var rest := Collapse(if pair then s[2..] else s[1..]);
    assert Collapse(s) == [c] + rest && ([c] + rest)[1..] == rest;
  }

  /** The printable characters come out escaped as a JSON string asks. */
  function Escaped(c: char): string {
    if c == '"' || c == '\\' then ['\\', c] else [c]
  }

  lemma EscapeFirst(s: string, signedChar: bool)
    requires s != ""
    ensures Escape(s, signedChar) ==
            if s[0] == '\\' && |s| > 1 && s[1] == '"' then Escaped('"') + Escape(s[2..], signedChar)
            else if s[0] as int >= 32 && !(signedChar && s[0] as int >= 128)
            then Escaped(s[0]) + Escape(s[1..], signedChar)
            else Escape(s[1..], signedChar)
  {
  }

  lemma ReadEscaped(c: char, more: string, tail: string)
    requires c as int >= 32
    ensures ParseChars(Escaped(c) + more + tail) == Prepend(c, ParseChars(more + tail))
  {
    hide ParseChars;
    assert Escaped(c) + more + tail == Escaped(c) + (more + tail);
    if c == '"' || c == '\\' { ReadPair(c, more + tail); } else { ReadPlain(c, more + tail); }
  }

  /** Whatever the input, the escaper's output is the inside of a JSON string, and it
      reads back as the cleaned input. */
  lemma {:induction false} EscapeReadsBack(s: string, signedChar: bool, rest: string)
    ensures ParseChars(Escape(s, signedChar) + (['"'] + rest)) == Some(Parsed(Clean(s, signedChar), rest))
  {
    hide ParseChars;
    var tail := ['"'] + rest;
    if s == "" {
      ReadQuote(rest);
      assert "" + tail == tail;
    } else {
      EscapeFirst(s, signedChar);
      CleanFirst(s, signedChar);
      hide Escape, Clean, Escaped;
      var pair := s[0] == '\\' && |s| > 1 && s[1] == '"';
      var left := if pair then s[2..] else s[1..];
      EscapeReadsBack(left, signedChar, rest);
      if pair || (s[0] as int >= 32 && !(signedChar && s[0] as int >= 128)) {
        ReadEscaped(if pair then '"' else s[0], Escape(left, signedChar), tail);
      }
    }
  }

  lemma ReadQuote(rest: string)
    ensures ParseChars(['"'] + rest) == Some(Parsed("", rest))
  {
    assert (['"'] + rest)[1..] == rest;
  }

  /** No control characters come out, and with signed characters nothing but ASCII. */
  lemma {:induction false} EscapeIsPrintable(s: string, signedChar: bool)
    ensures forall c :: c in Escape(s, signedChar) ==> c as int >= 32 && (signedChar ==> c as int < 128)
  {
    if s != "" {
      EscapeIsPrintable(s[1..], signedChar);
      if |s| > 1 { EscapeIsPrintable(s[2..], signedChar); }
    }
  }

  ghost predicate Untouched(s: string, signedChar: bool) {
    && (forall i :: 0 <= i < |s| ==> s[i] as int >= 32 && (signedChar ==> s[i] as int < 128))
    && (forall i :: 0 <= i < |s| - 1 ==> !(s[i] == '\\' && s[i + 1] == '"'))
  }

  lemma {:induction false} CleanShrinks(s: string, signedChar: bool)
    ensures |Clean(s, signedChar)| <= |s|
  {
    if s != "" {
      CleanFirst(s, signedChar);
      hide Clean;
      CleanShrinks(s[1..], signedChar);
      if |s| > 1 { CleanShrinks(s[2..], signedChar); }
    }
  }

  lemma UntouchedFirst(s: string, signedChar: bool)
    requires s != ""
    ensures Untouched(s, signedChar) <==>
            && s[0] as int >= 32 && (signedChar ==> s[0] as int < 128)
            && !(s[0] == '\\' && |s| > 1 && s[1] == '"')
            && Untouched(s[1..], signedChar)
  {
    assert s == [s[0]] + s[1..];
  }

  /** When the printed snippet reads back as the very input: exactly when nothing in
      it is filtered and no quote came already escaped. */
  lemma {:induction false} LosslessIff(s: string, signedChar: bool)
    ensures Clean(s, signedChar) == s <==> Untouched(s, signedChar)
  {
    if s != "" {
      CleanFirst(s, signedChar);
      UntouchedFirst(s, signedChar);
      hide Clean, Untouched;
      if s[0] == '\\' && |s| > 1 && s[1] == '"' {
        CleanShrinks(s[2..], signedChar);
      } else if s[0] as int >= 32 && !(signedChar && s[0] as int >= 128) {
        LosslessIff(s[1..], signedChar);
        SameTail(s[0], Clean(s[1..], signedChar), s[1..]);
        assert s == [s[0]] + s[1..];
      } else {
        CleanShrinks(s[1..], signedChar);
      }
    } else {
      assert Clean("", signedChar) == "";
    }
  }

  // ---------------------------------------------------------------- names go out unescaped

  ghost predicate PlainName(s: string) {
    forall i :: 0 <= i < |s| ==> s[i] as int >= 32 && s[i] != '"' && s[i] != '\\'
  }

  lemma {:induction false} PlainReadsBack(s: string, rest: string)
    requires PlainName(s)
    ensures ParseChars(s + ['"'] + rest) == Some(Parsed(s, rest))
  {
    var t := s + ['"'] + rest;
    if s == "" {
      assert t[1..] == rest;
    } else {
      assert t[1..] == s[1..] + ['"'] + rest;
      PlainReadsBack(s[1..], rest);
      assert s == [s[0]] + s[1..];
    }
  }

  lemma PrependFirst(c: char, p: Option<Parsed<string>>)
    ensures Prepend(c, p).Some? ==> Prepend(c, p).value.result == [c] + p.value.result
  {
  }

  lemma OnlyBackslash(c: char)
    ensures Unescape(c) == Some('\\') ==> c == '\\'
  {
  }

  /** What text can read back as a backslash first: two of them. */
  lemma FirstCharacter(t: string)
    ensures var p := ParseChars(t);
            p.Some? && p.value.result != "" && p.value.result[0] == '\\' ==> |t| > 1 && t[0] == '\\' && t[1] == '\\'
  {
    hide Prepend, Unescape;
    if t != "" && t[0] == '\\' && |t| > 1 && Unescape(t[1]).Some? {
      PrependFirst(Unescape(t[1]).value, ParseChars(t[2..]));
      OnlyBackslash(t[1]);
    } else if t != "" {
      PrependFirst(t[0], ParseChars(t[1..]));
    }
  }

  /** A reader that has already fallen behind by some backslashes never catches up. */
  lemma {:induction false} NeverCatchesUp(s: string, behind: string, rest: string)
    requires behind != "" && forall i :: 0 <= i < |behind| ==> behind[i] == '\\'
    ensures var p := ParseChars(s + ['"'] + rest);
            p.Some? ==> p.value.result != behind + s
  {
    hide ParseChars;
    var t := s + ['"'] + rest;
    if |s| > 1 && s[0] == '\\' && s[1] == '\\' {
      var more := behind[1..] + ['\\', '\\'];
      NeverCatchesUp(s[2..], more, rest);
      assert t == ['\\', '\\'] + (s[2..] + ['"'] + rest);
      ReadPair('\\', s[2..] + ['"'] + rest);
      PrependFirst('\\', ParseChars(s[2..] + ['"'] + rest));
      assert behind + s == ['\\'] + (more + s[2..]);
      assert (behind + s)[1..] == more + s[2..];
    } else {
      FirstCharacter(t);
      assert |s| <= 1 ==> t[|s|] == '"';
      assert forall i :: 0 <= i < |s| ==> t[i] == s[i];
      assert (behind + s)[0] == '\\';
    }
  }

  /** A field id that is not plain never reads back as itself, whatever follows it. */
  lemma {:induction false} OtherNamesDoNot(s: string, rest: string)
    requires !PlainName(s)
    ensures var p := ParseChars(s + ['"'] + rest);
            p.Some? ==> p.value.result != s
  {
    var t := s + ['"'] + rest;
    assert t[0] == s[0] && t[1..] == s[1..] + ['"'] + rest;
    if s[0] as int < 32 || s[0] == '"' {
    } else if s[0] != '\\' {
      OtherNamesDoNot(s[1..], rest);
      assert s == [s[0]] + s[1..];
    } else if |s| > 1 && s[1] == '\\' {
      NeverCatchesUp(s[2..], ['\\'], rest);
      assert t[2..] == s[2..] + ['"'] + rest && t[1] == '\\';
      assert s == ['\\'] + (['\\'] + s[2..]);
    } else {
      assert |s| == 1 ==> t[1] == '"';
      assert |s| > 1 ==> t[1] == s[1];
    }
  }

  /** A field id printed between quotes reads back as itself exactly when it has no
      character that needs escaping. */
  lemma NameReadsBackIff(s: string, rest: string)
    ensures var p := ParseChars(s + ['"'] + rest);
            && (p.Some? && p.value.result == s <==> PlainName(s))
            && (PlainName(s) ==> p == Some(Parsed(s, rest)))
  {
    if PlainName(s) {
      PlainReadsBack(s, rest);
    } else {
      OtherNamesDoNot(s, rest);
    }
  }

  // ---------------------------------------------------------------- the object printer

  datatype FieldSnippets = FieldSnippets(id: string, snippets: seq<string>)

  function Quoted(s: string, signedChar: bool): string {
    ['"'] + Escape(s, signedChar) + ['"']
  }

  function AllQuoted(ss: seq<string>, signedChar: bool): seq<string> {
    seq(|ss|, i requires 0 <= i < |ss| => Quoted(ss[i], signedChar))
  }

  function FieldText(f: FieldSnippets, signedChar: bool): string {
    ['"'] + f.id + "\":[" + Join(AllQuoted(f.snippets, signedChar), ",") + "]"
  }

  function AllFieldTexts(fs: seq<FieldSnippets>, signedChar: bool): seq<string> {
    seq(|fs|, i requires 0 <= i < |fs| => FieldText(fs[i], signedChar))
  }

  /** The proper form: items between single commas. */
  function ObjectText(fs: seq<FieldSnippets>, signedChar: bool): string {
    "{" + Join(AllFieldTexts(fs, signedChar), ",") + "}"
  }

  function SnippetValues(ss: seq<string>, signedChar: bool): seq<Value> {
    seq(|ss|, i requires 0 <= i < |ss| => Str(Clean(ss[i], signedChar)))
  }

  function FieldMember(f: FieldSnippets, signedChar: bool): Member {
    Member(f.id, Arr(SnippetValues(f.snippets, signedChar)))
  }

  function AllMembers(fs: seq<FieldSnippets>, signedChar: bool): seq<Member> {
    seq(|fs|, i requires 0 <= i < |fs| => FieldMember(fs[i], signedChar))
  }

  lemma SnippetReadsBack(s: string, signedChar: bool, rest: string)
    ensures ParseValue(Quoted(s, signedChar) + rest) == Some(Parsed(Str(Clean(s, signedChar)), rest))
  {
    var t := Quoted(s, signedChar) + rest;
    assert t[1..] == Escape(s, signedChar) + (['"'] + rest);
    EscapeReadsBack(s, signedChar, rest);
    assert SkipSpace(t) == t;
  }

  lemma NoSpace(c: char, t: string)
    requires c as int > 32
    ensures SkipSpace([c] + t) == [c] + t && ([c] + t)[1..] == t
  {
  }

  function AddItem(v: Value, p: Option<Parsed<seq<Value>>>): Option<Parsed<seq<Value>>> {
    if p.None? then None else Some(Parsed([v] + p.value.result, p.value.rest))
  }

  /** One item and what follows it. */
  lemma ItemStep(s: string, signedChar: bool, c: char, t: string)
    requires c == ']' || c == ','
    ensures ParseItems(Quoted(s, signedChar) + ([c] + t))
         == AddItem(Str(Clean(s, signedChar)), if c == ']' then Some(Parsed([], t)) else ParseItems(t))
  {
    hide Quoted, Clean;
    SnippetReadsBack(s, signedChar, [c] + t);
    NoSpace(c, t);
    var v := Str(Clean(s, signedChar));
    assert [v] + [] == [v];
  }

  lemma {:induction false} ItemsReadBack(ss: seq<string>, signedChar: bool, rest: string)
    requires ss != []
    ensures ParseItems(Join(AllQuoted(ss, signedChar), ",") + "]" + rest)
         == Some(Parsed(SnippetValues(ss, signedChar), rest))
  {
    hide Quoted, Clean, ParseItems;
    var q := AllQuoted(ss, signedChar);
    var t := Join(q, ",") + "]" + rest;
    if |ss| == 1 {
      assert t == Quoted(ss[0], signedChar) + ([']'] + rest);
      ItemStep(ss[0], signedChar, ']', rest);
      assert SnippetValues(ss, signedChar) == [Str(Clean(ss[0], signedChar))] + [];
    } else {
      assert q[1..] == AllQuoted(ss[1..], signedChar);
      var more := Join(q[1..], ",") + "]" + rest;
      assert t == Quoted(ss[0], signedChar) + ([','] + more);
      ItemStep(ss[0], signedChar, ',', more);
      ItemsReadBack(ss[1..], signedChar, rest);
      assert SnippetValues(ss, signedChar)
          == [Str(Clean(ss[0], signedChar))] + SnippetValues(ss[1..], signedChar);
    }
  }

  lemma JoinStartsLikeFirst(pieces: seq<string>, sep: string)
    requires pieces != [] && pieces[0] != ""
    ensures Join(pieces, sep) != "" && Join(pieces, sep)[0] == pieces[0][0]
  {
  }

  lemma ListReadsBack(ss: seq<string>, signedChar: bool, rest: string)
    ensures ParseValue("[" + Join(AllQuoted(ss, signedChar), ",") + "]" + rest)
         == Some(Parsed(Arr(SnippetValues(ss, signedChar)), rest))
  {
    var q := AllQuoted(ss, signedChar);
    var t, u := "[" + Join(q, ",") + "]" + rest, Join(q, ",") + "]" + rest;
    assert t[1..] == u && SkipSpace(t) == t;
    if ss == [] {
      assert u == "]" + rest && u[1..] == rest && SkipSpace(u) == u;
      assert SnippetValues(ss, signedChar) == [];
    } else {
      JoinStartsLikeFirst(q, ",");
      assert u[0] == '"' && SkipSpace(u) == u;
      ItemsReadBack(ss, signedChar, rest);
    }
  }

  lemma FieldReadsBack(f: FieldSnippets, signedChar: bool, rest: string)
    requires PlainName(f.id)
    ensures ParseMember(FieldText(f, signedChar) + rest) == Some(Parsed(FieldMember(f, signedChar), rest))
  {
    var list := "[" + Join(AllQuoted(f.snippets, signedChar), ",") + "]" + rest;
    var t := FieldText(f, signedChar) + rest;
    assert t[1..] == f.id + ['"'] + (":" + list);
    assert SkipSpace(t) == t;
    PlainReadsBack(f.id, ":" + list);
    assert SkipSpace(":" + list) == ":" + list && (":" + list)[1..] == list;
    ListReadsBack(f.snippets, signedChar, rest);
  }

  lemma {:induction false} FieldsReadBack(fs: seq<FieldSnippets>, signedChar: bool, rest: string)
    requires fs != [] && forall i :: 0 <= i < |fs| ==> PlainName(fs[i].id)
    ensures ParseMembers(Join(AllFieldTexts(fs, signedChar), ",") + "}" + rest)
         == Some(Parsed(AllMembers(fs, signedChar), rest))
  {
    hide ParseMember, FieldText;
    var q := AllFieldTexts(fs, signedChar);
    var t := Join(q, ",") + "}" + rest;
    if |fs| == 1 {
      assert t == FieldText(fs[0], signedChar) + ("}" + rest);
      FieldReadsBack(fs[0], signedChar, "}" + rest);
      assert ("}" + rest)[1..] == rest && SkipSpace("}" + rest) == "}" + rest;
      assert AllMembers(fs, signedChar) == [FieldMember(fs[0], signedChar)];
    } else {
      assert q[1..] == AllFieldTexts(fs[1..], signedChar);
      var more := Join(q[1..], ",") + "}" + rest;
      assert t == FieldText(fs[0], signedChar) + ("," + more);
      FieldReadsBack(fs[0], signedChar, "," + more);
      assert ("," + more)[1..] == more && SkipSpace("," + more) == "," + more;
      FieldsReadBack(fs[1..], signedChar, rest);
      assert AllMembers(fs, signedChar) == [FieldMember(fs[0], signedChar)] + AllMembers(fs[1..], signedChar);
    }
  }

  /** The printed object is a JSON text, and reads back as every field, in order,
      with its cleaned snippets, in order. */
  lemma ObjectReadsBack(fs: seq<FieldSnippets>, signedChar: bool)
    requires forall i :: 0 <= i < |fs| ==> PlainName(fs[i].id)
    ensures ParseText(ObjectText(fs, signedChar)) == Some(Obj(AllMembers(fs, signedChar)))
  {
    hide PlainName, ParseMembers, FieldText;
    var q := AllFieldTexts(fs, signedChar);
    var t, u := ObjectText(fs, signedChar), Join(q, ",") + "}" + "";
    assert t[1..] == u && SkipSpace(t) == t;
    if fs == [] {
      assert u == "}" && u[1..] == "" && SkipSpace(u) == u;
      assert AllMembers(fs, signedChar) == [];
    } else {
      FieldStartsQuoted(fs[0], signedChar);
      JoinStartsLikeFirst(q, ",");
      assert u[0] == '"' && SkipSpace(u) == u;
      FieldsReadBack(fs, signedChar, "");
    }
  }

  lemma MemberName(f: FieldSnippets, signedChar: bool, rest: string)
    ensures var p := ParseMember(FieldText(f, signedChar) + rest);
            p.Some? && p.value.result.name == f.id ==> PlainName(f.id)
  {
    var list := "[" + Join(AllQuoted(f.snippets, signedChar), ",") + "]" + rest;
    var t := FieldText(f, signedChar) + rest;
    assert t[1..] == f.id + ['"'] + (":" + list);
    assert SkipSpace(t) == t;
    if !PlainName(f.id) { OtherNamesDoNot(f.id, ":" + list); }
  }

  lemma {:induction false} NamesArePlain(fs: seq<FieldSnippets>, signedChar: bool, rest: string)
    requires fs != []
    ensures var p := ParseMembers(Join(AllFieldTexts(fs, signedChar), ",") + "}" + rest);
            p.Some? && p.value.result == AllMembers(fs, signedChar) ==>
              forall i :: 0 <= i < |fs| ==> PlainName(fs[i].id)
  {
    hide ParseMember, FieldText, PlainName;
    var q := AllFieldTexts(fs, signedChar);
    var t := Join(q, ",") + "}" + rest;
    var p := ParseMembers(t);
    if p.Some? && p.value.result == AllMembers(fs, signedChar) {
      assert p.value.result[0] == FieldMember(fs[0], signedChar);
      if |fs| == 1 {
        assert t == FieldText(fs[0], signedChar) + ("}" + rest);
        MemberName(fs[0], signedChar, "}" + rest);
      } else {
        assert q[1..] == AllFieldTexts(fs[1..], signedChar);
        var more := Join(q[1..], ",") + "}" + rest;
        assert t == FieldText(fs[0], signedChar) + ("," + more);
        MemberName(fs[0], signedChar, "," + more);
        FieldReadsBack(fs[0], signedChar, "," + more);
        assert ("," + more)[1..] == more && SkipSpace("," + more) == "," + more;
        NamesArePlain(fs[1..], signedChar, rest);
        RestOfMembers(p.value.result, fs, signedChar);
        assert ParseMembers(more).value.result == p.value.result[1..];
      }
    }
  }

  lemma RestOfMembers(ms: seq<Member>, fs: seq<FieldSnippets>, signedChar: bool)
    requires fs != [] && ms == AllMembers(fs, signedChar)
    ensures ms[1..] == AllMembers(fs[1..], signedChar)
  {
  }

  /** ... and only then: the object reads back as its fields and cleaned snippets if
      and only if no field id has a character that needs escaping. */
  lemma ObjectReadsBackIff(fs: seq<FieldSnippets>, signedChar: bool)
    ensures ParseText(ObjectText(fs, signedChar)) == Some(Obj(AllMembers(fs, signedChar)))
       <==> forall i :: 0 <= i < |fs| ==> PlainName(fs[i].id)
  {
    hide PlainName, ParseMembers, FieldText;
    if forall i :: 0 <= i < |fs| ==> PlainName(fs[i].id) {
      ObjectReadsBack(fs, signedChar);
    } else {
      var q := AllFieldTexts(fs, signedChar);
      var t, u := ObjectText(fs, signedChar), Join(q, ",") + "}" + "";
      assert t[1..] == u && SkipSpace(t) == t;
      FieldStartsQuoted(fs[0], signedChar);
      JoinStartsLikeFirst(q, ",");
      assert u[0] == '"' && SkipSpace(u) == u;
      NamesArePlain(fs, signedChar, "");
    }
  }

  lemma FieldStartsQuoted(f: FieldSnippets, signedChar: bool)
    ensures FieldText(f, signedChar) != "" && FieldText(f, signedChar)[0] == '"'
  {
  }

  /** So does the text for a record without snippets: an empty array. */
  lemma MissingReadsBack()
    ensures ParseText("[ ]") == Some(Arr([]))
  {
    assert SkipSpace("[ ]") == "[ ]" && "[ ]"[1..] == " ]" && " ]"[1..] == "]";
    assert SkipSpace("]") == "]" && SkipSpace(" ]") == "]";
  }

  // ---------------------------------------------------------------- the printer itself

  class StringBuffer {
    var text: string

    constructor ()
      ensures text == ""
    {
      text := "";
    }

    method Append(s: string)
      modifies this
      ensures text == old(text) + s
    {
      text := text + s;
    }

    method EraseLast()
      requires text != ""
      modifies this
      ensures text == old(text)[..|old(text)| - 1]
    {
      text := text[..|text| - 1];
    }
  }

  /** What the escaper sends at position `i`, and where it goes on. */
  function Taken(s: string, signedChar: bool, i: nat): (string, nat)
    requires i < |s|
  {
    if Dropped(s[i], signedChar) then ("", i + 1)
    else if s[i] == '"' then (['\\', '"'], i + 1)
    else if s[i] == '\\' then
      if i + 1 < |s| && s[i + 1] == '"' then (['\\', '"'], i + 2) else (['\\', '\\'], i + 1)
    else ([s[i]], i + 1)
  }

  lemma EscapeAt(s: string, signedChar: bool, i: nat)
    requires i < |s|
    ensures i < Taken(s, signedChar, i).1 <= |s|
    ensures Escape(s[i..], signedChar) == Taken(s, signedChar, i).0 + Escape(s[Taken(s, signedChar, i).1..], signedChar)
  {
    var rest := s[i..];
    assert rest[1..] == s[i + 1..];
    if i + 1 < |s| { assert rest[2..] == s[i + 2..] && rest[1] == s[i + 1]; }
  }

  lemma EscapeEnd(s: string, signedChar: bool)
    ensures Escape(s[0..], signedChar) == Escape(s, signedChar) && Escape(s[|s|..], signedChar) == ""
  {
    assert s[0..] == s;
  }

  method CleanAndAppendToBuffer(input: string, signedChar: bool, out: StringBuffer)
    modifies out
    ensures out.text == old(out.text) + Escape(input, signedChar)
  {
    hide Escape;
    EscapeEnd(input, signedChar);
    var i := 0;
    while i < |input|
      invariant 0 <= i <= |input|
      invariant out.text + Escape(input[i..], signedChar) == old(out.text) + Escape(input, signedChar)
    {
      ghost var before, was := out.text, i;
      EscapeAt(input, signedChar, i);
      i := CleanOne(input, signedChar, i, out);
      assert before + Escape(input[was..], signedChar) == out.text + Escape(input[i..], signedChar);
    }
  }

  /** The body of the loop: one character, or an escaped quote. */
  method CleanOne(input: string, signedChar: bool, at: nat, out: StringBuffer) returns (i: nat)
    requires at < |input|
    modifies out
    ensures i == Taken(input, signedChar, at).1
    ensures out.text == old(out.text) + Taken(input, signedChar, at).0
  {
    i := at;
    if Dropped(input[i], signedChar) {
      return i + 1;
    }
    if input[i] == '"' {
      out.Append(['\\']);
      out.Append(['"']);
    } else if input[i] == '\\' {
      if i != |input| - 1 && input[i + 1] == '"' {
        out.Append([input[i]]);
        i := i + 1;
        out.Append([input[i]]);
      } else {
        out.Append(['\\']);
        out.Append(['\\']);
      }
    } else {
      out.Append([input[i]]);
    }
    i := i + 1;
  }

  datatype RecordSnippet = RecordSnippet(recordId: nat, fields: seq<FieldSnippets>)

  /** What the loops have appended after `n` items: each with a comma behind it. */
  function Trailing(pieces: seq<string>, n: nat): string
    requires n <= |pieces|
  {
    if n == 0 then "" else Trailing(pieces, n - 1) + (pieces[n - 1] + ",")
  }

  lemma NoneTrailing(pieces: seq<string>)
    ensures Trailing(pieces, 0) == ""
  {
  }

  lemma OneMoreTrailing(pieces: seq<string>, n: nat)
    requires n < |pieces|
    ensures Trailing(pieces, n + 1) == Trailing(pieces, n) + (pieces[n] + ",")
  {
  }

  lemma FieldTexts(fs: seq<FieldSnippets>, signedChar: bool)
    ensures |AllFieldTexts(fs, signedChar)| == |fs|
    ensures forall i :: 0 <= i < |fs| ==> AllFieldTexts(fs, signedChar)[i] == FieldText(fs[i], signedChar)
  {
  }

  /** A comma after every piece, less the last comma, is a proper join. */
  lemma {:induction false} TrailingIsJoin(pieces: seq<string>, n: nat)
    requires 0 < n <= |pieces|
    ensures Trailing(pieces, n) == Join(pieces[..n], ",") + ","
  {
    if n == 1 {
      assert pieces[..1] == [pieces[0]];
      assert Trailing(pieces, 0) + (pieces[0] + ",") == pieces[0] + ",";
    } else {
      TrailingIsJoin(pieces, n - 1);
      JoinLast(pieces[..n - 1], ",", pieces[n - 1]);
      assert pieces[..n] == pieces[..n - 1] + [pieces[n - 1]];
    }
  }

  lemma DropComma(begun: string, pieces: seq<string>)
    requires pieces != []
    ensures var t := begun + Trailing(pieces, |pieces|);
            t != "" && t[..|t| - 1] == begun + Join(pieces, ",")
  {
    TrailingIsJoin(pieces, |pieces|);
    assert pieces[..|pieces|] == pieces;
  }

  method AppendSnippet(s: string, signedChar: bool, out: StringBuffer)
    modifies out
    ensures out.text == old(out.text) + (Quoted(s, signedChar) + ",")
  {
    out.Append(['"']);
    CleanAndAppendToBuffer(s, signedChar, out);
    out.Append(['"']);
    out.Append(",");
  }

  /** Prints one field's snippets, each with a comma, and erases the last comma. */
  method AppendSnippets(ss: seq<string>, signedChar: bool, out: StringBuffer)
    modifies out
    ensures out.text == old(out.text) + Join(AllQuoted(ss, signedChar), ",")
  {
    hide Quoted, Join, Escape;
    ghost var begun, q := out.text, AllQuoted(ss, signedChar);
    var k := 0;
    while k < |ss|
      invariant 0 <= k <= |ss|
      invariant out.text == begun + Trailing(q, k)
    {
      AppendSnippet(ss[k], signedChar, out);
      assert out.text == begun + (Trailing(q, k) + (q[k] + ","));
      k := k + 1;
    }
    if |ss| > 0 {
      DropComma(begun, q);
      out.EraseLast();
    } else {
      EmptyJoin(begun);
      assert q == [];
    }
  }

  lemma EmptyJoin(begun: string)
    ensures begun + Join([], ",") == begun
  {
  }

  /** Prints one field and its closing comma. */
  method AppendField(f: FieldSnippets, signedChar: bool, out: StringBuffer)
    modifies out
    ensures out.text == old(out.text) + (FieldText(f, signedChar) + ",")
  {
    hide Join, AllQuoted;
    out.Append(['"']);
    out.Append(f.id);
    out.Append(['"']);
    out.Append(":[");
    AppendSnippets(f.snippets, signedChar, out);
    out.Append("],");
  }

  /** Prints the snippets found for record `recIdx` of the result page that begins
      at `start`, or an empty array. The index difference is an unsigned 32-bit
      number. */
  method GenSnippetJSONString(recIdx: nat, start: nat, recordSnippets: seq<RecordSnippet>, internalId: nat,
                              signedChar: bool, out: StringBuffer)
    modifies out
    ensures var idx := (recIdx - start) % 0x1_0000_0000;
            out.text == old(out.text) +
              if idx < |recordSnippets| && recordSnippets[idx].recordId == internalId
              then ObjectText(recordSnippets[idx].fields, signedChar) else "[ ]"
  {
    hide FieldText, Join, Trailing, AllFieldTexts;
    var idx := (recIdx - start) % 0x1_0000_0000;
    if idx < |recordSnippets| && recordSnippets[idx].recordId == internalId {
      var fields := recordSnippets[idx].fields;
      out.Append("{");
      ghost var begun, q := out.text, AllFieldTexts(fields, signedChar);
      FieldTexts(fields, signedChar);
      NoneTrailing(q);
      var j := 0;
      while j < |fields|
        invariant 0 <= j <= |fields|
        invariant out.text == begun + Trailing(q, j)
      {
        AppendField(fields[j], signedChar, out);
        OneMoreTrailing(q, j);
        assert out.text == begun + (Trailing(q, j) + (q[j] + ","));
        j := j + 1;
      }
      if |fields| > 0 {
        DropComma(begun, q);
        out.EraseLast();
      } else {
        EmptyJoin(begun);
        assert q == [];
      }
      out.Append("}");
    } else {
      out.Append("[ ]");
    }
  }
}
