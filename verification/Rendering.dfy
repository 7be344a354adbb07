/** Rendering of notification texts (internal/alerts/i18n.go): the plain form replaces
    placeholders with a string replacer, the escaped form finds them with a regular
    expression. Plural rules, number formats and the iteration order of maps are
    parameters. */
module Rendering {
  import opened Common

  datatype Value = Text(text: string) | Int(n: int) | Other(code: int)

  datatype Arg = Plain(value: Value) | Nested(msg: Msg)

  datatype Msg = Msg(key: string, args: map<string, Arg>, raw: string)

  datatype Entry = Entry(text: string, plural: Option<map<string, string>>)

  datatype Translator = Translator(
    lang: string,
    catalogs: map<string, map<string, Entry>>,
    pluralClass: int -> string,
    format: Value -> string,
    order: set<string> -> seq<string>)

  /** A map is iterated over in some order, each key once. */
  ghost predicate Orders(order: set<string> -> seq<string>) {
    forall names: set<string> :: (forall name :: name in order(names) <==> name in names)
  }

  // -------------------------------------------------------------------- the catalog

  function Find(catalogs: map<string, map<string, Entry>>, lang: string, key: string): Option<Entry> {
    if lang in catalogs && key in catalogs[lang] then Some(catalogs[lang][key]) else None
  }

  /** An entry of the language, or the English one if it is missing or empty. */
  function Lookup(t: Translator, key: string): Option<Entry> {
    var entry := Find(t.catalogs, t.lang, key);
    if entry.Some? && (entry.value.text != "" || (entry.value.plural.Some? && |entry.value.plural.value| > 0))
    then entry
    else Find(t.catalogs, "en", key)
  }

  function FormOf(forms: map<string, string>, form: string): string {
    if form in forms then forms[form] else if "other" in forms then forms["other"] else ""
  }

  function CountOf(args: map<string, Arg>): int {
    if "count" in args && args["count"].Plain? && args["count"].value.Int? then args["count"].value.n else 0
  }

  function TextOf(t: Translator, m: Msg): Option<string> {
    match Lookup(t, m.key)
    case None => None
    case Some(entry) =>
      if entry.plural.Some? then Some(FormOf(entry.plural.value, t.pluralClass(CountOf(m.args))))
      else Some(entry.text)
  }

  predicate HasEntry(t: Translator, lang: string, key: string) {
    lang in t.catalogs && key in t.catalogs[lang]
  }

  /** An entry that says something: a text, or some plural form. */
  predicate IsWritten(entry: Entry) {
    entry.text != "" || (entry.plural.Some? && entry.plural.value != map[])
  }

  /** A message has the text of its own language if that is written, and that of English if
      not: then the language makes no difference. Without either it has none. */
  lemma {:induction false} TextFallsBack(t: Translator, m: Msg)
    ensures HasEntry(t, t.lang, m.key) && IsWritten(t.catalogs[t.lang][m.key])
            && t.catalogs[t.lang][m.key].plural.None? ==>
              TextOf(t, m) == Some(t.catalogs[t.lang][m.key].text)
    ensures !(HasEntry(t, t.lang, m.key) && IsWritten(t.catalogs[t.lang][m.key])) ==>
              TextOf(t, m) == TextOf(t.(lang := "en"), m)
    ensures !HasEntry(t, t.lang, m.key) && !HasEntry(t, "en", m.key) ==> TextOf(t, m) == None
    ensures HasEntry(t, "en", m.key) && t.catalogs["en"][m.key].plural.None? ==>
              TextOf(t.(lang := "en"), m) == Some(t.catalogs["en"][m.key].text)
  {
  }

  /** The plural form is that of the message's count, zero without a whole number, and the
      form "other" stands in for one that is missing. */
  lemma {:induction false} PluralIsOfCount(t: Translator, m: Msg, forms: map<string, string>, n: int)
    requires HasEntry(t, t.lang, m.key) && t.catalogs[t.lang][m.key].plural == Some(forms) && forms != map[]
    requires if "count" in m.args && m.args["count"].Plain? && m.args["count"].value.Int?
             then m.args["count"] == Plain(Int(n)) else n == 0
    ensures t.pluralClass(n) in forms ==> TextOf(t, m) == Some(forms[t.pluralClass(n)])
    ensures t.pluralClass(n) !in forms && "other" in forms ==> TextOf(t, m) == Some(forms["other"])
    ensures t.pluralClass(n) !in forms && "other" !in forms ==> TextOf(t, m) == Some("")
  {
  }

  // ------------------------------------------------------------------ the plain form

  function Pattern(name: string): string {
    "{" + name + "}"
  }

  /** The first of the names, in their order, whose placeholder stands at a position. */
  function NameAt(text: string, i: nat, names: seq<string>): Option<string> {
    if |names| == 0 then None
    else if HasAt(text, i, Pattern(names[0])) then Some(names[0])
    else NameAt(text, i, names[1..])
  }

  lemma {:induction false} NameAtFound(text: string, i: nat, names: seq<string>)
    requires NameAt(text, i, names).Some?
    ensures NameAt(text, i, names).value in names && HasAt(text, i, Pattern(NameAt(text, i, names).value))
  {
    if !HasAt(text, i, Pattern(names[0])) {
      NameAtFound(text, i, names[1..]);
    }
  }

  lemma {:induction false} NameAtFinds(text: string, i: nat, names: seq<string>, name: string)
    requires name in names && HasAt(text, i, Pattern(name))
    ensures NameAt(text, i, names).Some?
  {
    if !HasAt(text, i, Pattern(names[0])) {
      NameAtFinds(text, i, names[1..], name);
    }
  }

  function ValueOf(values: map<string, string>, name: string): string {
    if name in values then values[name] else ""
  }

  /** The string replacer: left to right, without overlaps. */
  function Replace(text: string, names: seq<string>, values: map<string, string>, i: nat): string
    requires i <= |text|
    decreases |text| - i
  {
    if i == |text| then ""
    else
      match NameAt(text, i, names)
      case Some(name) =>
        NameAtFound(text, i, names);
        ValueOf(values, name) + Replace(text, names, values, i + |name| + 2)
      case None => [text[i]] + Replace(text, names, values, i + 1)
  }

  function Fill(t: Translator, text: string, values: map<string, string>): string {
    if values == map[] || '{' !in text then text
    else Replace(text, t.order(values.Keys), values, 0)
  }

  function T(t: Translator, m: Msg): string
    decreases m, 1
  {
    if m.raw != "" || m.key == "" then m.raw
    else
      match TextOf(t, m)
      case None => m.key
      case Some(text) => Fill(t, text, Values(t, m))
  }

  function Values(t: Translator, m: Msg): (values: map<string, string>)
    ensures values.Keys == m.args.Keys
    decreases m, 0
  {
    map name | name in m.args :: Format(t, m.args[name])
  }

  function Format(t: Translator, arg: Arg): string
    decreases arg, 2
  {
    match arg
    case Plain(value) => t.format(value)
    case Nested(m) => T(t, m)
  }

  // ---------------------------------------------------------------- the escaped form

  predicate IsWordChar(c: char) {
    '0' <= c <= '9' || 'A' <= c <= 'Z' || 'a' <= c <= 'z' || c == '_'
  }

  /** The ASCII digits, letters and the underscore. */
  lemma {:induction false} WordCharsAre(c: char)
    ensures var n := c as int; IsWordChar(c) <==> 48 <= n < 58 || 65 <= n < 91 || 97 <= n < 123 || n == 95
  {
  }

  predicate IsWord(name: string) {
    |name| > 0 && forall i :: 0 <= i < |name| ==> IsWordChar(name[i])
  }

  function WordEnd(text: string, i: nat): (end: nat)
    requires i <= |text|
    ensures i <= end <= |text| && (forall k :: i <= k < end ==> IsWordChar(text[k]))
    ensures end < |text| ==> !IsWordChar(text[end])
    decreases |text| - i
  {
    if i < |text| && IsWordChar(text[i]) then WordEnd(text, i + 1) else i
  }

  /** The end of the placeholder that starts at a position, for the expression \{(\w+)\}. */
  function MatchEnd(text: string, i: nat): (end: Option<nat>)
    requires i < |text|
    ensures end.Some? ==> i + 2 < end.value <= |text|
  {
    var word := if text[i] == '{' then WordEnd(text, i + 1) else i;
    if word > i + 1 && word < |text| && text[word] == '}' then Some(word + 1) else None
  }

  lemma {:induction false} MatchIsWord(text: string, i: nat)
    requires i < |text| && MatchEnd(text, i).Some?
    ensures var end := MatchEnd(text, i).value;
      text[i] == '{' && text[end - 1] == '}' && IsWord(text[i + 1..end - 1])
  {
  }

  datatype Span = Span(start: nat, end: nat)

  ghost predicate InOrder(text: string, last: nat, spans: seq<Span>)
    decreases |spans|
  {
    |spans| > 0 ==>
      && last <= spans[0].start && spans[0].start + 2 < spans[0].end <= |text|
      && InOrder(text, spans[0].end, spans[1..])
  }

  /** All the matches, left to right, without overlaps. */
  function FindAll(text: string, i: nat): (spans: seq<Span>)
    requires i <= |text|
    ensures InOrder(text, i, spans)
    decreases |text| - i
  {
    if i == |text| then []
    else
      match MatchEnd(text, i)
      case Some(end) => [Span(i, end)] + FindAll(text, end)
      case None => Relax(text, i + 1, FindAll(text, i + 1)); FindAll(text, i + 1)
  }

  lemma {:induction false} Relax(text: string, last: nat, spans: seq<Span>)
    requires last > 0 && InOrder(text, last, spans)
    ensures InOrder(text, last - 1, spans)
  {
  }

  function Name(text: string, span: Span): string
    requires span.start + 2 < span.end <= |text|
  {
    text[span.start + 1..span.end - 1]
  }

  /** The text between matches escaped, and the arguments in place of the matches. */
  function Assemble(text: string, spans: seq<Span>, last: nat, rendered: map<string, string>,
                    escape: string -> string): string
    requires last <= |text| && InOrder(text, last, spans)
    decreases |spans|
  {
    if |spans| == 0 then escape(text[last..])
    else
      escape(text[last..spans[0].start]) + Piece(text, spans[0], rendered, escape)
      + Assemble(text, spans[1..], spans[0].end, rendered, escape)
  }

  /** The rendered argument, or the placeholder itself if there is no such argument. */
  function Piece(text: string, span: Span, rendered: map<string, string>, escape: string -> string): string
    requires span.start + 2 < span.end <= |text|
  {
    if Name(text, span) in rendered then rendered[Name(text, span)] else escape(text[span.start..span.end])
  }

  function Render(t: Translator, m: Msg, escape: string -> string, wrap: (string, string) -> string): string
    decreases m, 1
  {
    if m.raw != "" || m.key == "" then escape(m.raw)
    else
      match TextOf(t, m)
      case None => escape(m.key)
      case Some(text) => Assemble(text, FindAll(text, 0), 0, Rendered(t, m, escape, wrap), escape)
  }

  function Rendered(t: Translator, m: Msg, escape: string -> string,
                    wrap: (string, string) -> string): (rendered: map<string, string>)
    ensures rendered.Keys == m.args.Keys
    decreases m, 0
  {
    map name | name in m.args :: wrap(name, RenderArg(t, m.args[name], escape, wrap))
  }

  function RenderArg(t: Translator, arg: Arg, escape: string -> string, wrap: (string, string) -> string): string
    decreases arg, 2
  {
    match arg
    case Plain(value) => escape(t.format(value))
    case Nested(m) => Render(t, m, escape, wrap)
  }

  lemma {:induction false} Glue(a: string, b: string, c: string, d: string)
    ensures a + (b + c + d) == (a + b + c) + d
  {
  }

  lemma {:induction false} AssembleStep(text: string, spans: seq<Span>, i: nat, last: nat,
                                        rendered: map<string, string>,
                                        escape: string -> string, b: string)
    requires i < |spans| && last <= |text| && InOrder(text, last, spans[i..])
    ensures last <= spans[i].start && spans[i].start + 2 < spans[i].end <= |text|
    ensures InOrder(text, spans[i].end, spans[i + 1..])
    ensures b + Assemble(text, spans[i..], last, rendered, escape) ==
            (b + escape(text[last..spans[i].start]) + Piece(text, spans[i], rendered, escape))
            + Assemble(text, spans[i + 1..], spans[i].end, rendered, escape)
  {
    assert spans[i..][0] == spans[i] && spans[i..][1..] == spans[i + 1..];
    Glue(b, escape(text[last..spans[i].start]), Piece(text, spans[i], rendered, escape),
         Assemble(text, spans[i + 1..], spans[i].end, rendered, escape));
  }

  /** The loop over the matches. */
  method AssembleLoop(text: string, rendered: map<string, string>, escape: string -> string) returns (b: string)
    ensures b == Assemble(text, FindAll(text, 0), 0, rendered, escape)
  {
    b := "";
    var spans := FindAll(text, 0);
    var last: nat := 0;
    ghost var target := Assemble(text, spans, 0, rendered, escape);
    assert spans[0..] == spans;
    for i := 0 to |spans|
      invariant last <= |text| && InOrder(text, last, spans[i..])
      invariant b + Assemble(text, spans[i..], last, rendered, escape) == target
    {
      AssembleStep(text, spans, i, last, rendered, escape, b);
      b := b + escape(text[last..spans[i].start]);
      var name := Name(text, spans[i]);
      if name in rendered {
        b := b + rendered[name];
      } else {
        b := b + escape(text[spans[i].start..spans[i].end]);
      }
      last := spans[i].end;
    }
    b := b + escape(text[last..]);
  }

  // ------------------------------------------------------------------- both forms

  /** An escape that goes character by character. */
  ghost predicate CharacterWise(escape: string -> string) {
    escape("") == "" && forall s, t :: escape(s + t) == escape(s) + escape(t)
  }

  ghost predicate WordArgs(m: Msg) {
    forall name :: name in m.args ==> IsWord(name) && (m.args[name].Nested? ==> WordArgs(m.args[name].msg))
  }

  function Put(text: string, values: map<string, string>, start: nat, end: nat): string
    requires start + 2 < end <= |text|
  {
    if text[start + 1..end - 1] in values then values[text[start + 1..end - 1]] else text[start..end]
  }

  /** Reading a text with the expression, and putting values in. */
  function Scan(text: string, values: map<string, string>, i: nat): string
    requires i <= |text|
    decreases |text| - i
  {
    if i == |text| then ""
    else
      match MatchEnd(text, i)
      case Some(end) => Put(text, values, i, end) + Scan(text, values, end)
      case None => [text[i]] + Scan(text, values, i + 1)
  }

  lemma {:induction false} HasAtMeans(text: string, i: nat, name: string)
    ensures HasAt(text, i, Pattern(name)) <==>
      && i + |name| + 2 <= |text| && text[i] == '{' && text[i + |name| + 1] == '}'
      && text[i + 1..i + |name| + 1] == name
  {
    var end := i + |name| + 1;
    if end < |text| {
      var there := text[i..end + 1];
      assert there == [text[i]] + text[i + 1..end] + [text[end]];
      if there == Pattern(name) {
        assert there[0] == '{' && there[|name| + 1] == '}';
        assert there[1..|name| + 1] == text[i + 1..end] && Pattern(name)[1..|name| + 1] == name;
      }
    }
  }

  /** A word's placeholder stands at a position just when the expression matches it there. */
  lemma {:induction false} HasAtIffMatch(text: string, i: nat, name: string)
    requires i < |text| && IsWord(name)
    ensures HasAt(text, i, Pattern(name)) <==>
            MatchEnd(text, i) == Some(i + |name| + 2) && text[i + 1..i + |name| + 1] == name
  {
    HasAtMeans(text, i, name);
    if HasAt(text, i, Pattern(name)) {
      var end := i + |name| + 1;
      forall k | i + 1 <= k < end ensures IsWordChar(text[k]) {
        assert text[k] == text[i + 1..end][k - i - 1];
      }
      WordEndIs(text, i + 1, end);
    }
  }

  lemma {:induction false} WordEndIs(text: string, i: nat, end: nat)
    requires i <= end < |text| && (forall k :: i <= k < end ==> IsWordChar(text[k])) && !IsWordChar(text[end])
    ensures WordEnd(text, i) == end
    decreases end - i
  {
    if i < end {
      WordEndIs(text, i + 1, end);
    }
  }

  ghost predicate Words(names: seq<string>) {
    forall name :: name in names ==> IsWord(name)
  }

  lemma {:induction false} NoNameAt(text: string, k: nat, names: seq<string>)
    requires k < |text| && text[k] != '{'
    ensures NameAt(text, k, names).None?
  {
    var at := NameAt(text, k, names);
    if at.Some? {
      NameAtFound(text, k, names);
      HasAtMeans(text, k, at.value);
    }
  }

  lemma {:induction false} InsideMatchChar(text: string, i: nat, k: nat, end: nat)
    requires i < |text| && MatchEnd(text, i) == Some(end) && i < k < end
    ensures text[k] != '{'
  {
    MatchIsWord(text, i);
    if k < end - 1 {
      var word := text[i + 1..end - 1];
      assert text[k] == word[k - i - 1];
    }
  }

  /** The replacer copies what follows the opening brace of a match it does not replace. */
  lemma {:induction false} InsideMatch(text: string, names: seq<string>, values: map<string, string>, i: nat, k: nat,
                                       end: nat)
    requires i < |text| && MatchEnd(text, i) == Some(end) && i < k <= end
    ensures Replace(text, names, values, k) == text[k..end] + Replace(text, names, values, end)
    decreases end - k
  {
    if k < end {
      InsideMatch(text, names, values, i, k + 1, end);
      InsideMatchChar(text, i, k, end);
      NoNameAt(text, k, names);
      CopyOne(text, k, end, Replace(text, names, values, end));
    }
  }

  lemma {:induction false} CopyOne(text: string, k: nat, end: nat, rest: string)
    requires k < end <= |text|
    ensures [text[k]] + (text[k + 1..end] + rest) == text[k..end] + rest
  {
    assert text[k..end] == [text[k]] + text[k + 1..end];
  }

  lemma {:induction false} NameAtMatch(text: string, names: seq<string>, i: nat, end: nat)
    requires i < |text| && MatchEnd(text, i) == Some(end) && Words(names)
    ensures var name := text[i + 1..end - 1]; NameAt(text, i, names) == if name in names then Some(name) else None
  {
    var at, name := NameAt(text, i, names), text[i + 1..end - 1];
    MatchIsWord(text, i);
    HasAtIffMatch(text, i, name);
    if at.Some? {
      NameAtFound(text, i, names);
      HasAtIffMatch(text, i, at.value);
    } else if name in names {
      NameAtFinds(text, i, names, name);
    }
  }

  lemma {:induction false} ReplaceUnnamed(text: string, names: seq<string>, values: map<string, string>, i: nat,
                                          end: nat)
    requires i < |text| && MatchEnd(text, i) == Some(end) && NameAt(text, i, names).None?
    ensures Replace(text, names, values, i) == text[i..end] + Replace(text, names, values, end)
  {
    InsideMatch(text, names, values, i, i + 1, end);
    CopyOne(text, i, end, Replace(text, names, values, end));
  }

  lemma {:induction false} ReplaceNamed(text: string, names: seq<string>, values: map<string, string>, i: nat,
                                        name: string, end: nat)
    requires i < end <= |text| && NameAt(text, i, names) == Some(name) && end == i + |name| + 2
    ensures Replace(text, names, values, i) == ValueOf(values, name) + Replace(text, names, values, end)
  {
  }

  /** What the replacer does at a match of the expression. */
  lemma {:induction false} ReplaceAtMatch(text: string, names: seq<string>, values: map<string, string>, i: nat,
                                          end: nat)
    requires i < |text| && MatchEnd(text, i) == Some(end)
    requires var name := text[i + 1..end - 1]; NameAt(text, i, names) == if name in values then Some(name) else None
    ensures Replace(text, names, values, i) == Put(text, values, i, end) + Replace(text, names, values, end)
  {
    if text[i + 1..end - 1] in values {
      ReplaceNamed(text, names, values, i, text[i + 1..end - 1], end);
    } else {
      ReplaceUnnamed(text, names, values, i, end);
    }
  }

  /** And elsewhere. */
  lemma {:induction false} ReplaceOffMatch(text: string, names: seq<string>, values: map<string, string>, i: nat)
    requires i < |text| && MatchEnd(text, i).None? && Words(names)
    ensures Replace(text, names, values, i) == [text[i]] + Replace(text, names, values, i + 1)
  {
    var at := NameAt(text, i, names);
    if at.Some? {
      NameAtFound(text, i, names);
      HasAtIffMatch(text, i, at.value);
    }
  }

  /** Reading on from a position, as scanning does. */
  ghost predicate ReadsOn(text: string, values: map<string, string>, read: nat -> string, i: nat) {
    && (i == |text| ==> read(i) == "")
    && (i < |text| && MatchEnd(text, i).Some? ==>
          read(i) == Put(text, values, i, MatchEnd(text, i).value) + read(MatchEnd(text, i).value))
    && (i < |text| && MatchEnd(text, i).None? ==> read(i) == [text[i]] + read(i + 1))
  }

  lemma {:induction false} ScanIsUnique(text: string, values: map<string, string>, read: nat -> string, i: nat)
    requires i <= |text| && forall k: nat :: ReadsOn(text, values, read, k)
    ensures read(i) == Scan(text, values, i)
    decreases |text| - i
  {
    assert ReadsOn(text, values, read, i);
    if i < |text| {
      ScanIsUnique(text, values, read, if MatchEnd(text, i).Some? then MatchEnd(text, i).value else i + 1);
    }
  }

  lemma {:induction false} ReplaceReadsOn(text: string, names: seq<string>, values: map<string, string>,
                                          read: nat -> string, i: nat)
    requires Words(names) && (forall name :: name in names <==> name in values)
    requires forall k: nat :: k <= |text| ==> read(k) == Replace(text, names, values, k)
    ensures ReadsOn(text, values, read, i)
  {
    if i < |text| {
      var end := MatchEnd(text, i);
      if end.Some? {
        NameAtMatch(text, names, i, end.value);
        ReplaceAtMatch(text, names, values, i, end.value);
      } else {
        ReplaceOffMatch(text, names, values, i);
      }
    }
  }

  /** With words for names the replacer and the expression read a text alike. */
  lemma {:induction false} ReplaceIsScan(text: string, names: seq<string>, values: map<string, string>, i: nat)
    requires i <= |text| && Words(names) && (forall name :: name in names <==> name in values)
    ensures Replace(text, names, values, i) == Scan(text, values, i)
  {
    var read := (k: nat) => if k <= |text| then Replace(text, names, values, k) else "";
    forall k: nat ensures ReadsOn(text, values, read, k) {
      ReplaceReadsOn(text, names, values, read, k);
    }
    ScanIsUnique(text, values, read, i);
  }

  ghost predicate Escaped(values: map<string, string>, rendered: map<string, string>, escape: string -> string) {
    rendered.Keys == values.Keys && forall name :: name in values ==> rendered[name] == escape(values[name])
  }

  lemma {:induction false} PieceIsEscapedPut(text: string, span: Span, values: map<string, string>,
                                             rendered: map<string, string>, escape: string -> string)
    requires span.start + 2 < span.end <= |text| && Escaped(values, rendered, escape)
    ensures Piece(text, span, rendered, escape) == escape(Put(text, values, span.start, span.end))
  {
  }

  lemma {:induction false} AssembleFirst(text: string, span: Span, spans: seq<Span>, last: nat,
                                         rendered: map<string, string>,
                                         escape: string -> string)
    requires last <= span.start && span.start + 2 < span.end <= |text| && InOrder(text, span.end, spans)
    ensures InOrder(text, last, [span] + spans)
    ensures Assemble(text, [span] + spans, last, rendered, escape) ==
            escape(text[last..span.start]) + Piece(text, span, rendered, escape)
            + Assemble(text, spans, span.end, rendered, escape)
  {
    assert ([span] + spans)[1..] == spans;
  }

  /** Assembling escapes what scanning puts together. */
  lemma {:induction false} AssembleIsEscapedScan(text: string, last: nat, i: nat, values: map<string, string>,
                                                 rendered: map<string, string>, escape: string -> string)
    requires last <= i <= |text| && CharacterWise(escape) && Escaped(values, rendered, escape)
    ensures InOrder(text, last, FindAll(text, i))
    ensures Assemble(text, FindAll(text, i), last, rendered, escape) == escape(text[last..i] + Scan(text, values, i))
    decreases |text| - i
  {
    if i == |text| {
      assert text[last..] == text[last..i] + "";
    } else if MatchEnd(text, i).None? {
      AssembleIsEscapedScan(text, last, i + 1, values, rendered, escape);
      CopyNext(text, last, i, Scan(text, values, i + 1));
    } else {
      var end := MatchEnd(text, i).value;
      AssembleIsEscapedScan(text, end, end, values, rendered, escape);
      AssembleFirst(text, Span(i, end), FindAll(text, end), last, rendered, escape);
      PieceIsEscapedPut(text, Span(i, end), values, rendered, escape);
      Nothing(text, end, Scan(text, values, end));
      Escapes(escape, text[last..i], Put(text, values, i, end), Scan(text, values, end));
    }
  }

  lemma {:induction false} CopyNext(text: string, last: nat, i: nat, rest: string)
    requires last <= i < |text|
    ensures text[last..i + 1] + rest == text[last..i] + ([text[i]] + rest)
  {
  }

  lemma {:induction false} Nothing(text: string, i: nat, rest: string)
    requires i <= |text|
    ensures text[i..i] + rest == rest
  {
  }

  lemma {:induction false} Escapes(escape: string -> string, a: string, b: string, c: string)
    requires CharacterWise(escape)
    ensures escape(a) + escape(b) + escape(c) == escape(a + (b + c))
  {
    assert escape(a + (b + c)) == escape(a) + escape(b + c);
    assert escape(b + c) == escape(b) + escape(c);
  }

  lemma {:induction false} Resume(text: string, i: nat, end: nat)
    requires i <= end <= |text|
    ensures text[i..end] + text[end..] == text[i..]
  {
  }

  lemma {:induction false} ScanCopies(text: string, values: map<string, string>, i: nat)
    requires i <= |text| && (values == map[] || '{' !in text)
    ensures Scan(text, values, i) == text[i..]
    decreases |text| - i
  {
    if i < |text| {
      if MatchEnd(text, i).Some? {
        var end := MatchEnd(text, i).value;
        MatchIsWord(text, i);
        ScanCopies(text, values, end);
        assert text[i] in text;
        Resume(text, i, end);
      } else {
        ScanCopies(text, values, i + 1);
      }
    }
  }

  /** The plain form puts the values where the expression finds their names. */
  lemma {:induction false} FillIsScan(t: Translator, text: string, values: map<string, string>)
    requires Orders(t.order) && forall name :: name in values ==> IsWord(name)
    ensures Fill(t, text, values) == Scan(text, values, 0)
  {
    if values == map[] || '{' !in text {
      ScanCopies(text, values, 0);
      assert text[0..] == text;
    } else {
      var names := t.order(values.Keys);
      assert forall name :: name in names <==> name in values.Keys;
      ReplaceIsScan(text, names, values, 0);
    }
  }

  lemma {:induction false} AssembleIsEscapedFill(t: Translator, text: string, values: map<string, string>,
                                                 rendered: map<string, string>, escape: string -> string)
    requires Orders(t.order) && (forall name :: name in values ==> IsWord(name))
    requires CharacterWise(escape) && Escaped(values, rendered, escape)
    ensures Assemble(text, FindAll(text, 0), 0, rendered, escape) == escape(Fill(t, text, values))
  {
    FillIsScan(t, text, values);
    AssembleIsEscapedScan(text, 0, 0, values, rendered, escape);
    assert text[0..0] + Scan(text, values, 0) == Scan(text, values, 0);
  }

  function Same(name: string, value: string): string {
    value
  }

  /** For every message tree whose argument names are words, rendering with a
      character-wise escape and nothing wrapped is escaping the plain rendering. */
  lemma {:induction false} RenderIsEscapedT(t: Translator, m: Msg, escape: string -> string)
    requires Orders(t.order) && CharacterWise(escape) && WordArgs(m)
    ensures Render(t, m, escape, Same) == escape(T(t, m))
    decreases m, 1
  {
    if m.raw == "" && m.key != "" && TextOf(t, m).Some? {
      ArgsAreEscaped(t, m, escape);
      AssembleIsEscapedFill(t, TextOf(t, m).value, Values(t, m), Rendered(t, m, escape, Same), escape);
    }
  }

  lemma {:induction false} ArgsAreEscaped(t: Translator, m: Msg, escape: string -> string)
    requires Orders(t.order) && CharacterWise(escape) && WordArgs(m)
    ensures Escaped(Values(t, m), Rendered(t, m, escape, Same), escape)
    decreases m, 0
  {
    forall name | name in m.args ensures Rendered(t, m, escape, Same)[name] == escape(Values(t, m)[name]) {
      if m.args[name].Nested? {
        RenderIsEscapedT(t, m.args[name].msg, escape);
      }
    }
  }

  lemma {:induction false} OtherNamesReplaced(name: string, names: seq<string>, value: string)
    requires forall n :: n in names <==> n == name
    ensures Replace(Pattern(name), names, map[name := value], 0) == value
  {
    var text := Pattern(name);
    assert text[0..|text|] == text;
    assert HasAt(text, 0, Pattern(name));
    NameAtFinds(text, 0, names, name);
    NameAtFound(text, 0, names);
    assert Replace(text, names, map[name := value], |text|) == "";
  }

  lemma {:induction false} OtherNamesStand(name: string, value: string, escape: string -> string)
    requires !IsWord(name) && CharacterWise(escape)
    ensures Assemble(Pattern(name), FindAll(Pattern(name), 0), 0, map[name := escape(value)], escape) ==
              escape(Pattern(name))
  {
    var text, values := Pattern(name), map[name := value];
    AssembleIsEscapedScan(text, 0, 0, values, map[name := escape(value)], escape);
    ScanSkips(text, name, value, 0);
    assert text[0..0] + text[0..] == text;
  }

  lemma {:induction false} ScanSkips(text: string, name: string, value: string, i: nat)
    requires i <= |text| && !IsWord(name)
    ensures Scan(text, map[name := value], i) == text[i..]
    decreases |text| - i
  {
    if i < |text| {
      if MatchEnd(text, i).Some? {
        var end := MatchEnd(text, i).value;
        MatchIsWord(text, i);
        ScanSkips(text, name, value, end);
        Resume(text, i, end);
      } else {
        ScanSkips(text, name, value, i + 1);
      }
    }
  }

  // ---------------------------------------------------------------- markup and HTML

  function Markup(t: Translator, m: Msg, wrap: Option<(string, string) -> string>): string {
    if wrap.None? then T(t, m) else Render(t, m, s => s, wrap.value)
  }

  /** With nothing wrapped, markup is the plain text. */
  lemma {:induction false} MarkupIsT(t: Translator, m: Msg)
    requires Orders(t.order) && WordArgs(m)
    ensures Markup(t, m, Some(Same)) == Markup(t, m, None) == T(t, m)
  {
    RenderIsEscapedT(t, m, s => s);
  }

  function HtmlChar(c: char): string {
    if c == '"' then "&#34;" else if c == '\'' then "&#39;" else if c == '&' then "&amp;"
    else if c == '<' then "&lt;" else if c == '>' then "&gt;" else if c == '\0' then "\U{FFFD}"
    else [c]
  }

  /** Escaping each character. */
  function EscapeAll(escapeChar: char -> string, s: string): string {
    if |s| == 0 then "" else escapeChar(s[0]) + EscapeAll(escapeChar, s[1..])
  }

  lemma {:induction false} EscapeAllJoins(escapeChar: char -> string, s: string, t: string)
    ensures EscapeAll(escapeChar, s + t) == EscapeAll(escapeChar, s) + EscapeAll(escapeChar, t)
  {
    if |s| == 0 {
      assert s + t == t;
    } else {
      var st := s + t;
      assert st[0] == s[0] && st[1..] == s[1..] + t;
      EscapeAllJoins(escapeChar, s[1..], t);
      Associate(escapeChar(s[0]), EscapeAll(escapeChar, s[1..]), EscapeAll(escapeChar, t));
    }
  }

  function HtmlEscape(s: string): string {
    EscapeAll(HtmlChar, s)
  }

  function HTML(t: Translator, m: Msg, wrap: Option<(string, string) -> string>): string {
    Render(t, m, HtmlEscape, if wrap.None? then Same else wrap.value)
  }

  predicate StartsLong(s: string, a: char, b: char, c: char) {
    |s| >= 5 && s[0] == '&' && s[1] == a && s[2] == b && s[3] == c && s[4] == ';'
  }

  predicate StartsShort(s: string, a: char) {
    |s| >= 4 && s[0] == '&' && s[1] == a && s[2] == 't' && s[3] == ';'
  }

  /** How a browser reads the references the escape writes: the character at the front
      and the length it is written with. */
  function Front(s: string): (result: (char, nat))
    requires |s| > 0
    ensures 0 < result.1 <= |s|
  {
    if StartsLong(s, '#', '3', '4') then ('"', 5)
    else if StartsLong(s, '#', '3', '9') then ('\'', 5)
    else if StartsLong(s, 'a', 'm', 'p') then ('&', 5)
    else if StartsShort(s, 'l') then ('<', 4)
    else if StartsShort(s, 'g') then ('>', 4)
    else (s[0], 1)
  }

  function Unescape(s: string): string
    decreases |s|
  {
    if |s| == 0 then "" else [Front(s).0] + Unescape(s[Front(s).1..])
  }

  lemma {:induction false} FrontIsChar(c: char, rest: string)
    requires c != '\0'
    ensures Front(HtmlChar(c) + rest) == (c, |HtmlChar(c)|)
  {
    var s, h := HtmlChar(c) + rest, HtmlChar(c);
    assert forall k :: 0 <= k < |h| ==> s[k] == h[k];
  }

  lemma {:induction false} UnescapeChar(c: char, rest: string)
    requires c != '\0'
    ensures Unescape(HtmlChar(c) + rest) == [c] + Unescape(rest)
  {
    FrontIsChar(c, rest);
    var h := HtmlChar(c);
    assert (h + rest)[|h|..] == rest;
  }

  ghost predicate Undoes(unescape: string -> string, escapeChar: char -> string, c: char) {
    forall rest :: unescape(escapeChar(c) + rest) == [c] + unescape(rest)
  }

  lemma {:induction false} UndoneCharByChar(unescape: string -> string, escapeChar: char -> string, s: string)
    requires unescape("") == "" && forall c :: c in s ==> Undoes(unescape, escapeChar, c)
    ensures unescape(EscapeAll(escapeChar, s)) == s
  {
    if |s| == 0 {
    } else {
      UndoneCharByChar(unescape, escapeChar, s[1..]);
      assert Undoes(unescape, escapeChar, s[0]);
      assert s == [s[0]] + s[1..];
    }
  }

  lemma {:induction false} UnescapeEscapes(s: string)
    requires '\0' !in s
    ensures Unescape(HtmlEscape(s)) == s
  {
    forall c | c in s ensures Undoes(Unescape, HtmlChar, c) {
      forall rest ensures Unescape(HtmlChar(c) + rest) == [c] + Unescape(rest) {
        UnescapeChar(c, rest);
      }
    }
    UndoneCharByChar(Unescape, HtmlChar, s);
  }

  /** Unwrapped HTML is the escaped plain text, and reads as the plain text. */
  lemma {:induction false} HtmlShowsT(t: Translator, m: Msg)
    requires Orders(t.order) && WordArgs(m)
    ensures HTML(t, m, None) == HtmlEscape(T(t, m))
    ensures '\0' !in T(t, m) ==> Unescape(HTML(t, m, None)) == T(t, m)
  {
    HtmlEscapeIsCharacterWise();
    RenderIsEscapedT(t, m, HtmlEscape);
    if '\0' !in T(t, m) {
      UnescapeEscapes(T(t, m));
    }
  }

  lemma {:induction false} HtmlEscapeIsCharacterWise()
    ensures CharacterWise(HtmlEscape)
  {
    forall a, b ensures HtmlEscape(a + b) == HtmlEscape(a) + HtmlEscape(b) {
      EscapeAllJoins(HtmlChar, a, b);
    }
  }

  /** A message of one argument whose text is the placeholder of that argument. */
  ghost predicate IsPlaceholder(t: Translator, m: Msg, name: string, value: Value) {
    m.raw == "" && m.key != "" && m.args == map[name := Plain(value)] && TextOf(t, m) == Some(Pattern(name))
  }

  lemma {:induction false} PlaceholderInT(t: Translator, m: Msg, name: string, value: Value)
    requires Orders(t.order) && IsPlaceholder(t, m, name, value)
    ensures T(t, m) == t.format(value)
  {
    var values := map[name := t.format(value)];
    assert Values(t, m) == values;
    FillsPlaceholder(t, name, values, t.format(value));
  }

  lemma {:induction false} FillsPlaceholder(t: Translator, name: string, values: map<string, string>, value: string)
    requires Orders(t.order) && values == map[name := value]
    ensures Fill(t, Pattern(name), values) == value
  {
    var names := t.order(values.Keys);
    assert forall n :: n in names <==> n in values.Keys;
    OtherNamesReplaced(name, names, value);
    assert Pattern(name)[0] == '{' && '{' in Pattern(name) && name in values;
  }

  lemma {:induction false} PlaceholderInRender(t: Translator, m: Msg, name: string, value: Value,
                                               escape: string -> string)
    requires IsPlaceholder(t, m, name, value) && !IsWord(name) && CharacterWise(escape)
    ensures Render(t, m, escape, Same) == escape(Pattern(name))
  {
    var rendered := map[name := escape(t.format(value))];
    assert Rendered(t, m, escape, Same) == rendered;
    OtherNamesStand(name, t.format(value), escape);
  }

  lemma {:induction false} HtmlEscapeIsInjective(a: string, b: string)
    requires '\0' !in a && '\0' !in b
    ensures HtmlEscape(a) == HtmlEscape(b) <==> a == b
  {
    UnescapeEscapes(a);
    UnescapeEscapes(b);
  }

  /** Names have to be words: a text that is the placeholder of any other name is replaced
      in the plain form and left standing in HTML, so HTML is the escaped plain text only if
      the value happens to be spelled like the placeholder. */
  lemma {:induction false} OtherNamesDiffer(t: Translator, m: Msg, name: string, value: Value)
    requires Orders(t.order) && !IsWord(name) && IsPlaceholder(t, m, name, value)
    ensures T(t, m) == t.format(value) && HTML(t, m, None) == HtmlEscape(Pattern(name))
    ensures '\0' !in name && '\0' !in t.format(value) ==>
              (HTML(t, m, None) == HtmlEscape(T(t, m)) <==> t.format(value) == Pattern(name))
  {
    PlaceholderInT(t, m, name, value);
    HtmlEscapeIsCharacterWise();
    PlaceholderInRender(t, m, name, value, HtmlEscape);
    if '\0' !in name && '\0' !in t.format(value) {
      HtmlEscapeIsInjective(Pattern(name), t.format(value));
    }
  }
}
