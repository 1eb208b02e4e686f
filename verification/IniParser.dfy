/** ini_parser.c: the configuration file, read character by character. */
module IniParser {
  import opened CTypes
  import opened CStrings

  const MAX_CONFIGS: nat := 10
  const BUFFER: nat := 1024

  /** fgetc's end of file, once it is stored in a (signed) char: no different from byte 255. */
  const EOF: char := 255 as char

  /** What read_line hands back: true with a pair or a section name, or false. Wild is a store
      outside the 1024-byte buffer, or a copy of one that holds no terminator. */
  datatype Line = Pair(key: string, value: string) | Header(name: string) | End | Wild

  datatype Section = Section(name: string, pairs: seq<(string, string)>)

  /** What ini_parse returns; Stopped when an assertion fails, an access is wild, or a pair comes
      before any section. */
  datatype Outcome = Parsed(sections: seq<Section>) | Stopped

  // ---------------------------------------------------------------- read_line

  /** strdup of the buffer */
  function Dup(s: string): Option<string> {
    if |s| >= BUFFER && NUL !in s then None else Some(CStr(s))
  }

  /** The rest of a comment: whether a newline or NUL ended it, and what is left to read. */
  function SkipComment(f: string): (r: (bool, string))
    ensures |r.1| <= |f|
  {
    if f == "" then (false, "")
    else if f[0] == EOF then (false, f[1..])
    else if f[0] == NUL || f[0] == '\n' then (true, f[1..])
    else SkipComment(f[1..])
  }

  predicate Space(c: char) {
    c == '\t' || c == ' ' || c == '\r'
  }

  /** read_line from the state in which f is left to read, k is the key found and s is in the
      buffer: what it returns and what is then left. */
  function LineFrom(f: string, k: Option<string>, s: string): (r: (Line, string))
    ensures |r.1| <= |f|
    ensures r.0.Header? || (r.0.Pair? && k.None?) ==> |r.1| < |f|
    decreases |f|, 0
  {
    if f == "" then (AtEnd(k, s), "")
    else if f[0] == EOF then (AtEnd(k, s), f[1..])
    else if f[0] == NUL then (End, f[1..])
    else if f[0] == '[' then InHeader(f[1..], k, s)
    else if f[0] == '#' then
      var (ended, rest) := SkipComment(f[1..]);
      if ended then LineFrom(rest, k, s) else (End, rest)
    else if Space(f[0]) || (f[0] == '\n' && k.None?) then LineFrom(f[1..], k, s)
    else if f[0] == '=' then
      match Dup(s)
      case None => (Wild, f[1..])
      case Some(key) => LineFrom(f[1..], Some(key), "")
    else if f[0] == '\n' then (AtEnd(k, s), f[1..])
    else if |s| >= BUFFER then (Wild, f[1..])
    else LineFrom(f[1..], k, s + [f[0]])
  }

  /** The inner loop, after '['. */
  function InHeader(f: string, k: Option<string>, s: string): (r: (Line, string))
    ensures |r.1| <= |f|
    ensures r.0.Pair? && k.None? ==> |r.1| < |f|
    decreases |f|, 1
  {
    if f == "" then (End, "")
    else if f[0] == EOF then (End, f[1..])
    else if f[0] == ']' then
      match Dup(s)
      case None => (Wild, f[1..])
      case Some(name) => (Header(name), f[1..])
    else if |s| >= BUFFER then (Wild, f[1..])
    else if f[0] == NUL then LineFrom(f[1..], k, s + [NUL])
    else InHeader(f[1..], k, s + [f[0]])
  }

  /** The value ends here, if a key came before it. */
  function AtEnd(k: Option<string>, s: string): Line {
    match k
    case None => End
    case Some(key) =>
      match Dup(s)
      case None => Wild
      case Some(value) => Pair(key, value)
  }

  // ---------------------------------------------------------------- ini_parse

  /** What a line adds. */
  datatype Entry = Head(name: string) | Bind(key: string, value: string)

  /** get_section and the count of sections, or add_pair to the newest one; None when there is no
      room, or no section. */
  function Extend(sections: seq<Section>, e: Entry): (r: Option<seq<Section>>)
    ensures r.Some? && WithinLimits(sections) ==> WithinLimits(r.value)
  {
    var n := |sections|;
    match e
    case Head(name) => if n >= MAX_CONFIGS then None else Some(sections + [Section(name, [])])
    case Bind(key, value) =>
      if n == 0 || |sections[n - 1].pairs| >= MAX_CONFIGS then None
      else Some(sections[n - 1 := sections[n - 1].(pairs := sections[n - 1].pairs + [(key, value)])])
  }

  predicate WithinLimits(sections: seq<Section>) {
    |sections| <= 10 && forall i :: 0 <= i < |sections| ==> |sections[i].pairs| <= 10
  }

  function EntryOf(line: Line): Entry
    requires line.Header? || line.Pair?
  {
    if line.Header? then Head(line.name) else Bind(line.key, line.value)
  }

  /** ini_parse with f left to read. Whatever the file says, no more is returned than the arrays
      have room for. */
  function Parse(f: string, sections: seq<Section>): (r: Outcome)
    ensures r.Parsed? && WithinLimits(sections) ==> WithinLimits(r.sections)
    decreases |f|
  {
    var (line, rest) := LineFrom(f, None, "");
    if line.End? then Parsed(sections)
    else if line.Wild? then Stopped
    else
      match Extend(sections, EntryOf(line))
      case None => Stopped
      case Some(more) => Parse(rest, more)
  }

  /** The sections a list of entries makes, independently of any text. */
  function Build(entries: seq<Entry>, sections: seq<Section>): Outcome {
    if entries == [] then Parsed(sections)
    else
      match Extend(sections, entries[0])
      case None => Stopped
      case Some(more) => Build(entries[1..], more)
  }

  // ---------------------------------------------------------------- text and its meaning

  /** A line of a file, without its newline. */
  datatype Item =
    | Blank(ws: string)
    | Comment(ws: string, text: string)
    | Heading(before: string, name: string, after: string)
    | Assign(key: string, value: string)

  function Text(x: Item): string {
    match x
    case Blank(ws) => ws
    case Comment(ws, text) => ws + ("#" + text)
    case Heading(before, name, after) => before + ("[" + (name + ("]" + after)))
    case Assign(key, value) => key + ("=" + value)
  }

  /** A whole file; the newline at its end may be missing. */
  function Render(items: seq<Item>, newline: bool): string {
    if items == [] then ""
    else if |items| == 1 then Text(items[0]) + (if newline then "\n" else "")
    else Text(items[0]) + ("\n" + Render(items[1..], newline))
  }

  /** What is left of a key or a value: its spaces, tabs and carriage returns go. */
  function Squeeze(s: string): string {
    if s == "" then "" else (if Space(s[0]) then "" else [s[0]]) + Squeeze(s[1..])
  }

  predicate Spaces(s: string) {
    forall i :: 0 <= i < |s| ==> Space(s[i])
  }

  predicate Plain(c: char) {
    c != '[' && c != '#' && c != '=' && c != '\n' && c != NUL && c != EOF
  }

  /** A key or a value the format can carry. */
  predicate Word(s: string) {
    (forall i :: 0 <= i < |s| ==> Plain(s[i])) && |Squeeze(s)| < 1024
  }

  predicate Name(s: string) {
    (forall i :: 0 <= i < |s| ==> s[i] != ']' && s[i] != NUL && s[i] != EOF) && |s| < 1024
  }

  predicate Remark(s: string) {
    forall i :: 0 <= i < |s| ==> s[i] != '\n' && s[i] != NUL && s[i] != EOF
  }

  predicate WellFormed(x: Item) {
    match x
    case Blank(ws) => Spaces(ws)
    case Comment(ws, text) => Spaces(ws) && Remark(text)
    case Heading(before, name, after) => Spaces(before) && Name(name) && Spaces(after)
    case Assign(key, value) => Word(key) && Word(value)
  }

  /** The entries a line stands for: none, or one. */
  function MeaningOf(x: Item): seq<Entry> {
    match x
    case Blank(_) => []
    case Comment(_, _) => []
    case Heading(_, name, _) => [Head(name)]
    case Assign(key, value) => [Bind(Squeeze(key), Squeeze(value))]
  }

  function Meaning(items: seq<Item>): seq<Entry> {
    if items == [] then [] else MeaningOf(items[0]) + Meaning(items[1..])
  }

  // ---------------------------------------------------------------- how the text is read

  lemma {:induction false} ReadWord(word: string, f: string, k: Option<string>, s: string)
    requires forall i :: 0 <= i < |word| ==> Plain(word[i])
    requires |s| + |Squeeze(word)| <= BUFFER
    ensures LineFrom(word + f, k, s) == LineFrom(f, k, s + Squeeze(word))
  {
    if word == "" {
      assert word + f == f && s + "" == s;
    } else {
      var c := word[0];
      assert Plain(c) && (word + f)[0] == c && (word + f)[1..] == word[1..] + f;
      if Space(c) {
        assert Squeeze(word) == Squeeze(word[1..]);
        ReadWord(word[1..], f, k, s);
      } else {
        ReadWord(word[1..], f, k, s + [c]);
        assert s + [c] + Squeeze(word[1..]) == s + Squeeze(word);
      }
    }
  }

  lemma {:induction false} SpacesVanish(ws: string)
    requires Spaces(ws)
    ensures Squeeze(ws) == "" && forall i :: 0 <= i < |ws| ==> Plain(ws[i])
  {
    if ws != "" {
      SpacesVanish(ws[1..]);
    }
  }

  lemma ReadSpaces(ws: string, f: string, k: Option<string>, s: string)
    requires Spaces(ws) && |s| <= BUFFER
    ensures LineFrom(ws + f, k, s) == LineFrom(f, k, s)
  {
    SpacesVanish(ws);
    ReadWord(ws, f, k, s);
    assert s + "" == s;
  }

  lemma {:induction false} ReadName(name: string, f: string, k: Option<string>, s: string)
    requires Name(name) && NUL !in s && |s| + |name| < BUFFER
    ensures InHeader(name + ("]" + f), k, s) == (Header(s + name), f)
  {
    var t := name + ("]" + f);
    if name == "" {
      assert t[0] == ']' && t[1..] == f && s + name == s;
      CStrIs(s, s);
    } else {
      assert t[0] == name[0] && t[1..] == name[1..] + ("]" + f);
      ReadName(name[1..], f, k, s + [name[0]]);
      assert s + [name[0]] + name[1..] == s + name;
    }
  }

  lemma {:induction false} CommentIsSkipped(text: string, f: string)
    requires Remark(text)
    ensures SkipComment(text + ("\n" + f)) == (true, f)
  {
    var t := text + ("\n" + f);
    if text == "" {
      assert t[0] == '\n' && t[1..] == f;
    } else {
      assert t[0] == text[0] && t[1..] == text[1..] + ("\n" + f);
      CommentIsSkipped(text[1..], f);
    }
  }

  lemma {:induction false} LastCommentIsSkipped(text: string)
    requires Remark(text)
    ensures SkipComment(text) == (false, "")
  {
    if text != "" {
      LastCommentIsSkipped(text[1..]);
    }
  }

  /** A comment takes its newline with it, also in the middle of a line: a value before it goes
      on in the line below. Only at the start of a line does a comment stand alone. */
  lemma CommentJoinsLines(text: string, f: string, k: Option<string>, s: string)
    requires Remark(text)
    ensures LineFrom("#" + (text + ("\n" + f)), k, s) == LineFrom(f, k, s)
  {
    var t := text + ("\n" + f);
    CommentIsSkipped(text, f);
    assert ("#" + t)[0] == '#' && ("#" + t)[1..] == t;
  }

  /** A line with no '=' is not skipped: its text goes in front of the next line's. */
  lemma StrayLineJoinsNext(word: string, f: string)
    requires Word(word)
    ensures LineFrom(word + ("\n" + f), None, "") == LineFrom(f, None, Squeeze(word))
  {
    ReadWord(word, "\n" + f, None, "");
    assert "" + Squeeze(word) == Squeeze(word);
    assert ("\n" + f)[0] == '\n' && ("\n" + f)[1..] == f;
  }

  lemma WordHasNoNul(word: string)
    requires Word(word)
    ensures Dup(Squeeze(word)) == Some(Squeeze(word))
  {
    SqueezeKeeps(word);
    CStrIs(Squeeze(word), Squeeze(word));
  }

  lemma {:induction false} SqueezeKeeps(s: string)
    ensures forall c :: c in Squeeze(s) <==> c in s && !Space(c)
  {
    if s != "" {
      SqueezeKeeps(s[1..]);
      assert s == [s[0]] + s[1..];
    }
  }

  /** A key, '=' and a value, up to a newline or the end of the file. */
  lemma ReadAssign(key: string, value: string, f: string)
    requires Word(key) && Word(value)
    ensures LineFrom(key + ("=" + (value + ("\n" + f))), None, "") == (Pair(Squeeze(key), Squeeze(value)), f)
    ensures LineFrom(key + ("=" + value), None, "") == (Pair(Squeeze(key), Squeeze(value)), "")
  {
    var k := Some(Squeeze(key));
    ReadKey(key, value + ("\n" + f));
    ReadKey(key, value);
    WordHasNoNul(value);
    ReadWord(value, "\n" + f, k, "");
    ReadWord(value, "", k, "");
    assert value + "" == value && "" + Squeeze(value) == Squeeze(value);
    assert ("\n" + f)[0] == '\n' && ("\n" + f)[1..] == f;
  }

  lemma ReadKey(key: string, t: string)
    requires Word(key)
    ensures LineFrom(key + ("=" + t), None, "") == LineFrom(t, Some(Squeeze(key)), "")
  {
    WordHasNoNul(key);
    ReadWord(key, "=" + t, None, "");
    assert "" + Squeeze(key) == Squeeze(key);
    assert ("=" + t)[0] == '=' && ("=" + t)[1..] == t;
  }

  lemma ReadHeading(before: string, name: string, f: string)
    requires Spaces(before) && Name(name)
    ensures LineFrom(before + ("[" + (name + ("]" + f))), None, "") == (Header(name), f)
  {
    var t := name + ("]" + f);
    ReadSpaces(before, "[" + t, None, "");
    assert ("[" + t)[0] == '[' && ("[" + t)[1..] == t;
    ReadName(name, f, None, "");
    assert "" + name == name;
  }

  // ---------------------------------------------------------------- the round trip

  /** A blank line changes nothing. */
  lemma ParseBlank(ws: string, f: string, sections: seq<Section>)
    requires Spaces(ws)
    ensures Parse(ws + ("\n" + f), sections) == Parse(f, sections)
    ensures Parse(ws, sections) == Parsed(sections)
  {
    ReadSpaces(ws, "\n" + f, None, "");
    assert ("\n" + f)[0] == '\n' && ("\n" + f)[1..] == f;
    ReadSpaces(ws, "", None, "");
    assert ws + "" == ws;
  }

  lemma ParseComment(ws: string, text: string, f: string, sections: seq<Section>)
    requires Spaces(ws) && Remark(text)
    ensures Parse(ws + ("#" + (text + ("\n" + f))), sections) == Parse(f, sections)
    ensures Parse(ws + ("#" + text), sections) == Parsed(sections)
  {
    ReadSpaces(ws, "#" + (text + ("\n" + f)), None, "");
    CommentJoinsLines(text, f, None, "");
    ReadSpaces(ws, "#" + text, None, "");
    LastCommentIsSkipped(text);
    assert ("#" + text)[0] == '#' && ("#" + text)[1..] == text;
  }

  lemma ParseHeading(before: string, name: string, after: string, f: string, sections: seq<Section>)
    requires Spaces(before) && Name(name) && Spaces(after)
    ensures Parse(before + ("[" + (name + ("]" + (after + ("\n" + f))))), sections) ==
            Then(Head(name), f, sections)
    ensures Parse(before + ("[" + (name + ("]" + after))), sections) == Then(Head(name), "", sections)
  {
    ReadHeading(before, name, after + ("\n" + f));
    ReadHeading(before, name, after);
    var more := Extend(sections, Head(name));
    if more.Some? {
      ParseBlank(after, f, more.value);
    }
  }

  lemma ParseAssign(key: string, value: string, f: string, sections: seq<Section>)
    requires Word(key) && Word(value)
    ensures var e := Bind(Squeeze(key), Squeeze(value));
            && Parse(key + ("=" + (value + ("\n" + f))), sections) == Then(e, f, sections)
            && Parse(key + ("=" + value), sections) == Then(e, "", sections)
  {
    ReadAssign(key, value, f);
  }

  lemma HeadingThen(before: string, name: string, after: string, n: string)
    ensures Text(Heading(before, name, after)) + n == before + ("[" + (name + ("]" + (after + n))))
  {
  }

  lemma AssignThen(key: string, value: string, n: string)
    ensures Text(Assign(key, value)) + n == key + ("=" + (value + n))
  {
  }

  lemma CommentThen(ws: string, text: string, n: string)
    ensures Text(Comment(ws, text)) + n == ws + ("#" + (text + n))
  {
  }

  /** What parsing goes on with after one line. */
  lemma ParseItem(x: Item, f: string, sections: seq<Section>)
    requires WellFormed(x)
    ensures Parse(Text(x) + ("\n" + f), sections) == Continue(x, f, sections)
    ensures Parse(Text(x), sections) == Continue(x, "", sections)
  {
    match x
    case Blank(ws) => ParseBlank(ws, f, sections);
    case Comment(ws, text) =>
      CommentThen(ws, text, "\n" + f);
      ParseComment(ws, text, f, sections);
    case Heading(before, name, after) =>
      HeadingThen(before, name, after, "\n" + f);
      ParseHeading(before, name, after, f, sections);
    case Assign(key, value) =>
      AssignThen(key, value, "\n" + f);
      ParseAssign(key, value, f, sections);
  }

  /** The entry e is added, then f is parsed. */
  ghost function Then(e: Entry, f: string, sections: seq<Section>): Outcome {
    match Extend(sections, e)
    case None => Stopped
    case Some(more) => Parse(f, more)
  }

  /** The entry of x is added, if it has one, then f is parsed. */
  ghost function Continue(x: Item, f: string, sections: seq<Section>): Outcome {
    if MeaningOf(x) == [] then Parse(f, sections) else Then(MeaningOf(x)[0], f, sections)
  }

  /** ini_parse reads every well-formed file for what its lines mean: spaces, tabs and carriage
      returns, blank lines, comment lines and a missing last newline make no difference, and it
      stops exactly when the entries themselves do not fit. */
  lemma {:induction false} ParseRendered(items: seq<Item>, newline: bool, sections: seq<Section>)
    requires forall x :: x in items ==> WellFormed(x)
    ensures Parse(Render(items, newline), sections) == Build(Meaning(items), sections)
  {
    if items != [] {
      var x := items[0];
      var f := Render(items[1..], newline);
      BuildOne(x, Meaning(items[1..]), sections);
      ParseItem(x, f, sections);
      if |items| == 1 {
        assert Text(x) + "" == Text(x) && Text(x) + ("\n" + "") == Text(x) + "\n";
      }
      if MeaningOf(x) == [] {
        ParseRendered(items[1..], newline, sections);
      } else {
        var more := Extend(sections, MeaningOf(x)[0]);
        if more.Some? {
          ParseRendered(items[1..], newline, more.value);
        }
      }
    }
  }

  lemma BuildOne(x: Item, es: seq<Entry>, sections: seq<Section>)
    ensures Build(MeaningOf(x) + es, sections) ==
            if MeaningOf(x) == [] then Build(es, sections)
            else
              match Extend(sections, MeaningOf(x)[0])
              case None => Stopped
              case Some(more) => Build(es, more)
  {
    if MeaningOf(x) == [] {
      assert [] + es == es;
    } else {
      assert (MeaningOf(x) + es)[1..] == es;
    }
  }

  function Binds(pairs: seq<(string, string)>): seq<Entry> {
    if pairs == [] then [] else [Bind(pairs[0].0, pairs[0].1)] + Binds(pairs[1..])
  }

  function Entries(sections: seq<Section>): seq<Entry> {
    if sections == [] then []
    else [Head(sections[0].name)] + (Binds(sections[0].pairs) + Entries(sections[1..]))
  }

  lemma {:induction false} BuildBinds(pairs: seq<(string, string)>, es: seq<Entry>, acc: seq<Section>, x: Section)
    requires |x.pairs| <= MAX_CONFIGS
    ensures Build(Binds(pairs) + es, acc + [x]) ==
            if |x.pairs| + |pairs| <= MAX_CONFIGS then Build(es, acc + [x.(pairs := x.pairs + pairs)]) else Stopped
  {
    var all := Binds(pairs) + es;
    if pairs == [] {
      assert all == es && x.pairs + pairs == x.pairs;
    } else {
      var y := x.(pairs := x.pairs + [pairs[0]]);
      assert all[0] == Bind(pairs[0].0, pairs[0].1) && all[1..] == Binds(pairs[1..]) + es;
      assert (pairs[0].0, pairs[0].1) == pairs[0];
      if |x.pairs| < MAX_CONFIGS {
        assert (acc + [x])[|acc| := y] == acc + [y];
        BuildBinds(pairs[1..], es, acc, y);
        assert y.pairs + pairs[1..] == x.pairs + pairs;
      }
    }
  }

  lemma LimitsOf(acc: seq<Section>, x: Section, rest: seq<Section>)
    requires WithinLimits(acc)
    ensures acc + ([x] + rest) == (acc + [x]) + rest
    ensures WithinLimits(acc + ([x] + rest)) ==> |acc| < MAX_CONFIGS && |x.pairs| <= MAX_CONFIGS
    ensures |acc| < MAX_CONFIGS && |x.pairs| <= MAX_CONFIGS ==> WithinLimits(acc + [x])
  {
    assert (acc + ([x] + rest))[|acc|] == x;
  }

  /** One section and the entries after it. */
  lemma BuildSection(x: Section, es: seq<Entry>, acc: seq<Section>)
    ensures Build([Head(x.name)] + (Binds(x.pairs) + es), acc) ==
            if |acc| < MAX_CONFIGS && |x.pairs| <= MAX_CONFIGS then Build(es, acc + [x]) else Stopped
  {
    var all := Binds(x.pairs) + es;
    assert ([Head(x.name)] + all)[0] == Head(x.name) && ([Head(x.name)] + all)[1..] == all;
    BuildBinds(x.pairs, es, acc, Section(x.name, []));
    assert [] + x.pairs == x.pairs;
    assert Section(x.name, []).(pairs := x.pairs) == x;
  }

  /** The entries of a list of sections build that list, if it fits the arrays; if not, the
      program stops. */
  lemma {:induction false} BuildEntries(sections: seq<Section>, acc: seq<Section>)
    requires WithinLimits(acc)
    ensures Build(Entries(sections), acc) ==
            if WithinLimits(acc + sections) then Parsed(acc + sections) else Stopped
  {
    if sections == [] {
      assert acc + sections == acc;
    } else {
      var x, rest := sections[0], sections[1..];
      assert sections == [x] + rest;
      LimitsOf(acc, x, rest);
      BuildSection(x, Entries(rest), acc);
      if |acc| < MAX_CONFIGS && |x.pairs| <= MAX_CONFIGS {
        BuildEntries(rest, acc + [x]);
      }
    }
  }

  /** Every file that says what `sections` says, however it is laid out, gives back those
      sections, up to ten of them with up to ten pairs each; and with more it stops. */
  lemma RoundTrip(items: seq<Item>, newline: bool, sections: seq<Section>)
    requires forall x :: x in items ==> WellFormed(x)
    requires Meaning(items) == Entries(sections)
    ensures Parse(Render(items, newline), []) == if WithinLimits(sections) then Parsed(sections) else Stopped
  {
    ParseRendered(items, newline, []);
    BuildEntries(sections, []);
    assert [] + sections == sections;
  }

  // ---------------------------------------------------------------- the printed form

  function Assigns(pairs: seq<(string, string)>): seq<Item> {
    if pairs == [] then [] else [Assign(pairs[0].0, pairs[0].1)] + Assigns(pairs[1..])
  }

  /** One line for each section name and each pair. */
  function Lines(sections: seq<Section>): seq<Item> {
    if sections == [] then []
    else [Heading("", sections[0].name, "")] + (Assigns(sections[0].pairs) + Lines(sections[1..]))
  }

  predicate Compact(s: string) {
    Word(s) && forall i :: 0 <= i < |s| ==> !Space(s[i])
  }

  predicate Printable(sections: seq<Section>) {
    forall x :: x in sections ==>
      Name(x.name) && forall p :: p in x.pairs ==> Compact(p.0) && Compact(p.1)
  }

  lemma {:induction false} SqueezeCompact(s: string)
    requires forall i :: 0 <= i < |s| ==> !Space(s[i])
    ensures Squeeze(s) == s
  {
    if s != "" {
      SqueezeCompact(s[1..]);
      assert s == [s[0]] + s[1..];
    }
  }

  lemma {:induction false} AssignsWellFormed(pairs: seq<(string, string)>)
    requires forall p :: p in pairs ==> Compact(p.0) && Compact(p.1)
    ensures forall x :: x in Assigns(pairs) ==> WellFormed(x)
    ensures forall p :: p in pairs ==> Squeeze(p.0) == p.0 && Squeeze(p.1) == p.1
  {
    if pairs != [] {
      assert pairs[0] in pairs;
      SqueezeCompact(pairs[0].0);
      SqueezeCompact(pairs[0].1);
      AssignsWellFormed(pairs[1..]);
      assert pairs == [pairs[0]] + pairs[1..];
    }
  }

  lemma {:induction false} MeaningOfAssigns(pairs: seq<(string, string)>, rest: seq<Item>)
    requires forall p :: p in pairs ==> Squeeze(p.0) == p.0 && Squeeze(p.1) == p.1
    ensures Meaning(Assigns(pairs) + rest) == Binds(pairs) + Meaning(rest)
  {
    if pairs == [] {
      assert Assigns(pairs) + rest == rest;
    } else {
      var p, t := pairs[0], Assigns(pairs[1..]) + rest;
      assert p in pairs;
      MeaningOfAssigns(pairs[1..], rest);
      MeaningCons(Assign(p.0, p.1), t);
      FirstPair(pairs, rest, Meaning(rest));
    }
  }

  lemma FirstPair(pairs: seq<(string, string)>, rest: seq<Item>, es: seq<Entry>)
    requires pairs != []
    ensures Assigns(pairs) + rest == [Assign(pairs[0].0, pairs[0].1)] + (Assigns(pairs[1..]) + rest)
    ensures Binds(pairs) + es == [Bind(pairs[0].0, pairs[0].1)] + (Binds(pairs[1..]) + es)
  {
  }

  lemma MeaningCons(x: Item, t: seq<Item>)
    ensures Meaning([x] + t) == MeaningOf(x) + Meaning(t)
  {
    assert ([x] + t)[1..] == t;
  }

  lemma {:induction false} MeaningOfLines(sections: seq<Section>)
    requires Printable(sections)
    ensures Meaning(Lines(sections)) == Entries(sections)
    ensures forall x :: x in Lines(sections) ==> WellFormed(x)
  {
    if sections != [] {
      var x := sections[0];
      assert x in sections;
      MeaningOfLines(sections[1..]);
      AssignsWellFormed(x.pairs);
      MeaningOfAssigns(x.pairs, Lines(sections[1..]));
      assert Lines(sections)[1..] == Assigns(x.pairs) + Lines(sections[1..]);
    }
  }

  /** Parsing undoes printing exactly for the lists that fit the arrays. */
  lemma ParsePrintedIff(sections: seq<Section>, newline: bool)
    requires Printable(sections)
    ensures Parse(Render(Lines(sections), newline), []) == Parsed(sections) <==> WithinLimits(sections)
  {
    MeaningOfLines(sections);
    RoundTrip(Lines(sections), newline, sections);
  }

  // ---------------------------------------------------------------- spaces, tabs and carriage returns

  /** A string without its spaces, tabs and carriage returns. */
  function Without(s: string): string {
    if s == "" then ""
    else if s[0] == ' ' || s[0] == '\t' || s[0] == '\r' then Without(s[1..])
    else [s[0]] + Without(s[1..])
  }

  /** Just these three characters are dropped, wherever they stand, and the rest stays in order. */
  lemma {:induction false} SqueezeIs(s: string)
    ensures Squeeze(s) == Without(s)
    ensures forall c :: c in Squeeze(s) <==> c in s && c != ' ' && c != '\t' && c != '\r'
  {
    if s != "" {
      SqueezeIs(s[1..]);
      assert s == [s[0]] + s[1..];
    }
  }

  predicate IsBlank(w: char) {
    w == ' ' || w == '\t' || w == '\r'
  }

  lemma {:induction false} SqueezeInserted(a: string, b: string, w: char)
    requires IsBlank(w)
    ensures Squeeze(a + [w] + b) == Squeeze(a + b)
  {
    if a == "" {
      assert (a + [w] + b)[1..] == b == a + b;
    } else {
      SqueezeInserted(a[1..], b, w);
      assert (a + [w] + b)[1..] == a[1..] + [w] + b && (a + b)[1..] == a[1..] + b;
    }
  }

  function Insert(s: string, k: nat, w: char): (t: string)
    requires k <= |s|
    ensures |t| == |s| + 1
    ensures forall i :: 0 <= i < |t| ==> t[i] == if i < k then s[i] else if i == k then w else s[i - 1]
  {
    s[..k] + [w] + s[k..]
  }

  lemma WordInserted(s: string, k: nat, w: char)
    requires Word(s) && k <= |s| && IsBlank(w)
    ensures Word(Insert(s, k, w)) && Squeeze(Insert(s, k, w)) == Squeeze(s)
  {
    SqueezeInserted(s[..k], s[k..], w);
    assert s[..k] + s[k..] == s;
    PlainInserted(s, k, w);
  }

  lemma PlainInserted(s: string, k: nat, w: char)
    requires (forall i :: 0 <= i < |s| ==> Plain(s[i])) && k <= |s| && IsBlank(w)
    ensures forall i :: 0 <= i < |Insert(s, k, w)| ==> Plain(Insert(s, k, w)[i])
  {
  }

  lemma SpacesInserted(s: string, k: nat, w: char)
    requires Spaces(s) && k <= |s| && IsBlank(w)
    ensures Spaces(Insert(s, k, w))
  {
  }

  lemma InsertLeft(a: string, b: string, k: nat, w: char)
    requires k <= |a|
    ensures Insert(a + b, k, w) == Insert(a, k, w) + b
  {
  }

  lemma InsertRight(a: string, b: string, k: nat, w: char)
    requires |a| <= k <= |a| + |b|
    ensures Insert(a + b, k, w) == a + Insert(b, k - |a|, w)
  {
  }

  /** A place in a line that is not inside a section name and its brackets. */
  predicate Outside(x: Item, k: nat) {
    x.Heading? ==> k <= |x.before| || k >= |x.before| + |x.name| + 2
  }

  /** The line with w put at place k. */
  function Sprinkle(x: Item, k: nat, w: char): Item
    requires k <= |Text(x)| && Outside(x, k)
  {
    match x
    case Blank(ws) => Blank(Insert(ws, k, w))
    case Comment(ws, text) =>
      if k <= |ws| then Comment(Insert(ws, k, w), text) else Comment(ws, Insert(text, k - |ws| - 1, w))
    case Heading(before, name, after) =>
      if k <= |before| then Heading(Insert(before, k, w), name, after)
      else Heading(before, name, Insert(after, k - |before| - |name| - 2, w))
    case Assign(key, value) =>
      if k <= |key| then Assign(Insert(key, k, w), value) else Assign(key, Insert(value, k - |key| - 1, w))
  }

  lemma SprinkledComment(ws: string, text: string, k: nat, w: char)
    requires k <= |ws| + 1 + |text|
    ensures Text(Sprinkle(Comment(ws, text), k, w)) == Insert(ws + ("#" + text), k, w)
  {
    if k <= |ws| {
      InsertLeft(ws, "#" + text, k, w);
    } else {
      InsertRight(ws, "#" + text, k, w);
      InsertRight("#", text, k - |ws|, w);
    }
  }

  lemma SprinkledAssign(key: string, value: string, k: nat, w: char)
    requires k <= |key| + 1 + |value|
    ensures Text(Sprinkle(Assign(key, value), k, w)) == Insert(key + ("=" + value), k, w)
  {
    if k <= |key| {
      InsertLeft(key, "=" + value, k, w);
    } else {
      InsertRight(key, "=" + value, k, w);
      InsertRight("=", value, k - |key|, w);
    }
  }

  lemma SprinkledHeading(before: string, name: string, after: string, k: nat, w: char)
    requires k <= |before| || |before| + |name| + 2 <= k <= |before| + |name| + 2 + |after|
    ensures Text(Sprinkle(Heading(before, name, after), k, w))
         == Insert(before + ("[" + (name + ("]" + after))), k, w)
  {
    var t := "[" + (name + ("]" + after));
    if k <= |before| {
      InsertLeft(before, t, k, w);
    } else {
      InsertRight(before, t, k, w);
      InsertRight("[", name + ("]" + after), k - |before|, w);
      InsertRight(name, "]" + after, k - |before| - 1, w);
      InsertRight("]", after, k - |before| - 1 - |name|, w);
    }
  }

  lemma SprinkledText(x: Item, k: nat, w: char)
    requires k <= |Text(x)| && Outside(x, k)
    ensures Text(Sprinkle(x, k, w)) == Insert(Text(x), k, w)
  {
    match x
    case Blank(ws) =>
    case Comment(ws, text) => SprinkledComment(ws, text, k, w);
    case Heading(before, name, after) => SprinkledHeading(before, name, after, k, w);
    case Assign(key, value) => SprinkledAssign(key, value, k, w);
  }

  lemma SprinkledMeaning(x: Item, k: nat, w: char)
    requires k <= |Text(x)| && Outside(x, k) && WellFormed(x) && IsBlank(w)
    ensures WellFormed(Sprinkle(x, k, w)) && MeaningOf(Sprinkle(x, k, w)) == MeaningOf(x)
  {
    match x
    case Blank(ws) => SpacesInserted(ws, k, w);
    case Comment(ws, text) =>
      if k <= |ws| {
        SpacesInserted(ws, k, w);
      }
    case Heading(before, name, after) =>
      if k <= |before| {
        SpacesInserted(before, k, w);
      } else {
        SpacesInserted(after, k - |before| - |name| - 2, w);
      }
    case Assign(key, value) =>
      if k <= |key| {
        WordInserted(key, k, w);
      } else {
        WordInserted(value, k - |key| - 1, w);
      }
  }

  lemma {:induction false} SameMeaning(items: seq<Item>, i: nat, y: Item)
    requires i < |items| && MeaningOf(y) == MeaningOf(items[i])
    ensures Meaning(items[i := y]) == Meaning(items)
  {
    if i > 0 {
      SameMeaning(items[1..], i - 1, y);
      assert items[i := y][1..] == items[1..][i - 1 := y];
    } else {
      assert items[i := y][1..] == items[1..];
    }
  }

  /** A space, a tab or a carriage return put anywhere outside a section name, in any line of a
      well-formed file, leaves what is read unchanged. */
  lemma BlanksDoNotMatter(items: seq<Item>, newline: bool, i: nat, k: nat, w: char)
    requires forall x :: x in items ==> WellFormed(x)
    requires i < |items| && k <= |Text(items[i])| && Outside(items[i], k)
    requires w == ' ' || w == '\t' || w == '\r'
    ensures var y := Sprinkle(items[i], k, w);
            && Text(y) == Insert(Text(items[i]), k, w)
            && Parse(Render(items[i := y], newline), []) == Parse(Render(items, newline), [])
  {
    var y := Sprinkle(items[i], k, w);
    SprinkledText(items[i], k, w);
    SprinkledMeaning(items[i], k, w);
    SameMeaning(items, i, y);
    ParseRendered(items, newline, []);
    assert forall x :: x in items[i := y] ==> x == y || x in items;
    ParseRendered(items[i := y], newline, []);
  }

  /** The same lines, each ended by a carriage return and a newline. */
  function RenderCrlf(items: seq<Item>): string {
    if items == [] then "" else Text(items[0]) + ("\r\n" + RenderCrlf(items[1..]))
  }

  function WithCr(x: Item): Item {
    Sprinkle(x, |Text(x)|, '\r')
  }

  function AllWithCr(items: seq<Item>): seq<Item> {
    if items == [] then [] else [WithCr(items[0])] + AllWithCr(items[1..])
  }

  lemma {:induction false} CrlfMeaning(items: seq<Item>)
    requires forall x :: x in items ==> WellFormed(x)
    ensures Meaning(AllWithCr(items)) == Meaning(items)
    ensures forall x :: x in AllWithCr(items) ==> WellFormed(x)
  {
    if items != [] {
      var x := items[0];
      SprinkledMeaning(x, |Text(x)|, '\r');
      CrlfMeaning(items[1..]);
      assert AllWithCr(items)[1..] == AllWithCr(items[1..]);
    }
  }

  lemma CrJoins(t: string, r: string)
    ensures Insert(t, |t|, '\r') + ("\n" + r) == t + ("\r\n" + r)
  {
    assert Insert(t, |t|, '\r') == t + "\r";
  }

  lemma {:induction false} CrlfLines(items: seq<Item>)
    ensures Render(AllWithCr(items), true) == RenderCrlf(items)
  {
    if items != [] {
      var x := items[0];
      CrlfLines(items[1..]);
      SprinkledText(x, |Text(x)|, '\r');
      assert AllWithCr(items)[0] == WithCr(x) && AllWithCr(items)[1..] == AllWithCr(items[1..]);
      FirstLine(AllWithCr(items));
      CrJoins(Text(x), RenderCrlf(items[1..]));
    }
  }

  lemma FirstLine(items: seq<Item>)
    requires items != []
    ensures Render(items, true) == Text(items[0]) + ("\n" + Render(items[1..], true))
  {
    if |items| == 1 {
      assert "\n" + "" == "\n";
    }
  }

  /** A file with CRLF line ends is read as the same file with plain ones. */
  lemma CrlfDoesNotMatter(items: seq<Item>)
    requires forall x :: x in items ==> WellFormed(x)
    ensures Parse(RenderCrlf(items), []) == Parse(Render(items, true), [])
  {
    CrlfLines(items);
    CrlfMeaning(items);
    ParseRendered(items, true, []);
    ParseRendered(AllWithCr(items), true, []);
  }

  // ---------------------------------------------------------------- what else a line can be

  lemma ReadKeyAgain(key: string, t: string, k: string)
    requires Word(key)
    ensures LineFrom(key + ("=" + t), Some(k), "") == LineFrom(t, Some(Squeeze(key)), "")
  {
    WordHasNoNul(key);
    ReadWord(key, "=" + t, Some(k), "");
    assert "" + Squeeze(key) == Squeeze(key);
    assert ("=" + t)[0] == '=' && ("=" + t)[1..] == t;
  }

  lemma ReadValue(value: string, f: string, k: string)
    requires Word(value)
    ensures LineFrom(value + ("\n" + f), Some(k), "") == (Pair(k, Squeeze(value)), f)
  {
    WordHasNoNul(value);
    ReadWord(value, "\n" + f, Some(k), "");
    assert "" + Squeeze(value) == Squeeze(value) && ("\n" + f)[0] == '\n' && ("\n" + f)[1..] == f;
  }

  /** Of several '=' the last one counts: what stands before it is the key. */
  lemma LastEqualsCounts(first: string, key: string, value: string, f: string)
    requires Word(first) && Word(key) && Word(value)
    ensures LineFrom(first + ("=" + (key + ("=" + (value + ("\n" + f))))), None, "")
         == (Pair(Squeeze(key), Squeeze(value)), f)
  {
    var t := value + ("\n" + f);
    ReadKey(first, key + ("=" + t));
    ReadKeyAgain(key, t, Squeeze(first));
    ReadValue(value, f, Squeeze(key));
  }

  /** A '[' anywhere begins a section name, to which the text before it, since any '=', belongs. */
  lemma HeadingAfterText(word: string, name: string, f: string, k: Option<string>)
    requires Word(word) && Name(name) && |Squeeze(word)| + |name| < 1024
    ensures LineFrom(word + ("[" + (name + ("]" + f))), k, "") == (Header(Squeeze(word) + name), f)
  {
    var t := name + ("]" + f);
    ReadWord(word, "[" + t, k, "");
    assert "" + Squeeze(word) == Squeeze(word) && ("[" + t)[0] == '[' && ("[" + t)[1..] == t;
    SqueezeKeeps(word);
    ReadName(name, f, k, Squeeze(word));
  }

  lemma {:induction false} ReadTooLong(word: string, f: string, k: Option<string>, s: string)
    requires forall i :: 0 <= i < |word| ==> Plain(word[i])
    requires |s| <= 1024 < |s| + |Squeeze(word)|
    ensures LineFrom(word + f, k, s).0 == Wild
  {
    var c := word[0];
    assert Plain(c) && (word + f)[0] == c && (word + f)[1..] == word[1..] + f;
    if Space(c) {
      ReadTooLong(word[1..], f, k, s);
    } else if |s| < 1024 {
      ReadTooLong(word[1..], f, k, s + [c]);
    }
  }

  /** A key of 1024 characters or more does not fit, nor does such a name. */
  lemma KeyTooLong(word: string, f: string, k: Option<string>)
    requires (forall i :: 0 <= i < |word| ==> Plain(word[i])) && |Squeeze(word)| >= 1024
    ensures LineFrom(word + ("=" + f), k, "").0 == Wild
  {
    if |Squeeze(word)| > 1024 {
      ReadTooLong(word, "=" + f, k, "");
    } else {
      ReadWord(word, "=" + f, k, "");
      assert "" + Squeeze(word) == Squeeze(word) && ("=" + f)[0] == '=';
      SqueezeKeeps(word);
    }
  }

  lemma {:induction false} NameTooLong(name: string, f: string, k: Option<string>, s: string)
    requires forall i :: 0 <= i < |name| ==> name[i] != ']' && name[i] != NUL && name[i] != EOF
    requires NUL !in s && |s| <= 1024 <= |s| + |name|
    ensures InHeader(name + ("]" + f), k, s).0 == Wild
  {
    var t := name + ("]" + f);
    if name == "" {
      assert t[0] == ']';
    } else {
      assert t[0] == name[0] && t[1..] == name[1..] + ("]" + f);
      if |s| < 1024 {
        NameTooLong(name[1..], f, k, s + [name[0]]);
      }
    }
  }

  /** A NUL ends the file, and so does byte 255, which is what the end of the file is read as. */
  lemma FileEnds(f: string, key: string, s: string)
    requires NUL !in s && |s| < 1024
    ensures LineFrom("\0" + f, None, s) == (End, f) && LineFrom("\0" + f, Some(key), s) == (End, f)
    ensures LineFrom("", None, s) == (End, "") && LineFrom([255 as char] + f, None, s) == (End, f)
    ensures LineFrom("", Some(key), s) == (Pair(key, s), "")
    ensures LineFrom([255 as char] + f, Some(key), s) == (Pair(key, s), f)
  {
    CStrIs(s, s);
    assert ("\0" + f)[1..] == f && ([255 as char] + f)[1..] == f;
  }

  /** In a comment the end of the file ends everything, and a NUL ends the comment. */
  lemma {:induction false} CommentEnds(text: string, f: string)
    requires Remark(text)
    ensures SkipComment(text + "\0" + f) == (true, f) && SkipComment(text + [255 as char] + f) == (false, f)
  {
    if text == "" {
      assert ("" + "\0" + f)[1..] == f && ("" + [255 as char] + f)[1..] == f;
    } else {
      CommentEnds(text[1..], f);
      assert (text + "\0" + f)[1..] == text[1..] + "\0" + f;
      assert (text + [255 as char] + f)[1..] == text[1..] + [255 as char] + f;
    }
  }

  /** In a section name the end of the file ends everything; a NUL leaves the name, and ends what is
      seen of the text so far. */
  lemma {:induction false} NameEnds(name: string, f: string, k: Option<string>, s: string)
    requires Name(name) && |s| + |name| < 1024
    ensures InHeader(name + [255 as char] + f, k, s) == (End, f)
    ensures InHeader(name + "\0" + f, k, s) == LineFrom(f, k, s + name + "\0")
  {
    if name == "" {
      assert ("" + [255 as char] + f)[1..] == f && ("" + "\0" + f)[1..] == f && s + "" == s;
    } else {
      NameEnds(name[1..], f, k, s + [name[0]]);
      assert (name + [255 as char] + f)[1..] == name[1..] + [255 as char] + f;
      assert (name + "\0" + f)[1..] == name[1..] + "\0" + f;
      assert s + [name[0]] + name[1..] == s + name;
    }
  }

  /** A pair before any section stops the program. */
  lemma PairNeedsSection(key: string, value: string, f: string)
    requires Word(key) && Word(value)
    ensures Parse(key + ("=" + (value + ("\n" + f))), []) == Stopped
  {
    ReadAssign(key, value, f);
  }

  // ---------------------------------------------------------------- what is accepted

  /** What asgard_config_read has picked out of the sections. */
  datatype Settings = Settings(
    producerBuffers: int, consumerBuffers: int, useBuffers: int, doSearch: int, producerPort: int, consumerPort: int)

  /** Its checks, once all is picked. */
  predicate Accepted(s: Settings) {
    if !(0 < s.producerBuffers && s.producerBuffers == s.consumerBuffers) then false
    else if 0 >= s.useBuffers && s.useBuffers > s.producerBuffers then false
    else if 0 != s.doSearch && 1 != s.doSearch then false
    else !(0 == s.producerPort || s.producerPort != s.consumerPort)
  }

  /** Exactly what is accepted: the message about USE_BUFFERS promises a value from 1 to BUFFERS, but
      any value is accepted where one is. */
  lemma UseBuffersUnchecked(s: Settings, n: int)
    ensures Accepted(s) <==> Accepted(s.(useBuffers := n))
    ensures Accepted(s) <==>
            && s.producerBuffers == s.consumerBuffers >= 1
            && (s.doSearch == 0 || s.doSearch == 1)
            && s.producerPort == s.consumerPort && s.producerPort != 0
  {
  }

  // ---------------------------------------------------------------- the program

  /** A section as add_pair updates it. */
  class SectionRecord {
    const name: string
    const pairs: array<(string, string)>
    var count: nat

    ghost predicate Valid() {
      pairs.Length == MAX_CONFIGS
    }

    ghost function Contents(): Section
      reads this, pairs
    {
      Section(name, if count <= pairs.Length then pairs[..count] else [])
    }

    /** get_section */
    constructor (name: string)
      ensures Valid() && fresh(pairs) && count == 0 && this.name == name
      ensures Contents() == Section(name, [])
    {
      this.name := name;
      pairs := new (string, string)[MAX_CONFIGS](_ => ("", ""));
      count := 0;
    }

    /** add_pair: false where the store is past the array, or the assertion fails. */
    method AddPair(key: string, value: string) returns (ok: bool)
      requires Valid() && count <= MAX_CONFIGS
      modifies this`count, pairs
      ensures count <= MAX_CONFIGS && ok == (old(count) < MAX_CONFIGS)
      ensures Contents() == if ok then old(Contents()).(pairs := old(Contents()).pairs + [(key, value)])
                            else old(Contents())
    {
      if count >= MAX_CONFIGS {
        return false;
      }
      pairs[count] := (key, value);
      count := count + 1;
      return true;
    }
  }

  /** The open configuration file. */
  class Reader {
    const file: string
    var pos: nat

    ghost predicate Valid()
      reads this
    {
      pos <= |file|
    }

    ghost function Ahead(): string
      reads this
      requires Valid()
    {
      file[pos..]
    }

    constructor (file: string)
      ensures Valid() && Ahead() == file
    {
      this.file := file;
      pos := 0;
    }

    /** fgetc */
    method GetChar() returns (ch: char)
      requires Valid()
      modifies this
      ensures Valid()
      ensures old(Ahead()) == "" ==> ch == EOF && Ahead() == ""
      ensures old(Ahead()) != "" ==> ch == old(Ahead())[0] && Ahead() == old(Ahead())[1..]
    {
      if pos == |file| {
        return EOF;
      }
      ch := file[pos];
      pos := pos + 1;
    }

    /** strdup of the buffer, in which i characters have been stored */
    method StrDup(s: array<char>, i: nat) returns (r: Option<string>)
      requires Buffered(s, i)
      ensures r == Dup(s[..i])
    {
      BufferHolds(s[..], s[..i]);
      if |CStr(s[..])| == s.Length {
        return None;
      }
      r := Some(CStr(s[..]));
    }

    ghost predicate Buffered(s: array<char>, i: nat)
      reads s
    {
      i <= s.Length == BUFFER && Holds(s[..], s[..i])
    }

    /** s[i++] = ch */
    method Put(s: array<char>, i: nat, ch: char)
      requires Buffered(s, i) && i < BUFFER
      modifies s
      ensures Buffered(s, i + 1) && s[..i + 1] == old(s[..i]) + [ch]
    {
      ghost var acc := s[..i];
      assert forall j :: i <= j < BUFFER ==> s[j] == s[..][j] == NUL;
      s[i] := ch;
      assert s[..i + 1] == acc + [ch];
    }

    /** memset(s, 0, 1024) */
    method Clear(s: array<char>)
      requires s.Length == BUFFER
      modifies s
      ensures Buffered(s, 0)
    {
      forall j | 0 <= j < s.Length {
        s[j] := NUL;
      }
    }

    /** The loop that skips a comment. */
    method SkipRest() returns (ended: bool)
      requires Valid()
      modifies this
      ensures Valid() && (ended, Ahead()) == SkipComment(old(Ahead()))
    {
      while true
        invariant Valid() && SkipComment(Ahead()) == SkipComment(old(Ahead()))
        decreases |Ahead()|
      {
        var ch := GetChar();
        if ch == EOF {
          return false;
        }
        if ch == NUL || ch == '\n' {
          return true;
        }
      }
    }

    /** The loop after '['. None when a NUL ends it, which read_line then stores. */
    method ReadName(s: array<char>, i0: nat, ghost k: Option<string>) returns (r: Option<Line>, i: nat)
      requires Valid() && Buffered(s, i0)
      modifies this, s
      ensures Valid() && Buffered(s, i)
      ensures r.None? ==> |Ahead()| <= |old(Ahead())|
      ensures InHeader(old(Ahead()), k, old(s[..i0])) ==
              match r
              case Some(line) => (line, Ahead())
              case None => if i >= BUFFER then (Wild, Ahead()) else LineFrom(Ahead(), k, s[..i] + [NUL])
    {
      i := i0;
      while true
        invariant Valid() && Buffered(s, i)
        invariant InHeader(Ahead(), k, s[..i]) == InHeader(old(Ahead()), k, old(s[..i0]))
        invariant |Ahead()| <= |old(Ahead())|
        decreases |Ahead()|
      {
        var ch := GetChar();
        if ch == NUL {
          return None, i;
        }
        if ch == ']' {
          var name := StrDup(s, i);
          return Some(if name.None? then Wild else Header(name.value)), i;
        }
        if ch == EOF {
          return Some(End), i;
        }
        if i == BUFFER {
          return Some(Wild), i;
        }
        Put(s, i, ch);
        i := i + 1;
      }
    }

    /** read_line */
    method ReadLine() returns (line: Line)
      requires Valid()
      modifies this
      ensures Valid() && (line, Ahead()) == LineFrom(old(Ahead()), None, "")
    {
      var s := new char[BUFFER](_ => NUL);
      var i: nat := 0;
      var k: Option<string> := None;
      while true
        invariant Valid() && Buffered(s, i) && fresh(s)
        invariant LineFrom(Ahead(), k, s[..i]) == LineFrom(old(Ahead()), None, "")
        decreases |Ahead()|
      {
        var ch := GetChar();
        if ch == NUL {
          return End;
        }
        if ch == '[' {
          var r;
          r, i := ReadName(s, i, k);
          if r.Some? {
            return r.value;
          }
          ch := NUL;
        }
        if ch == EOF || (ch == '\n' && k.Some?) {
          if k.None? {
            return End;
          }
          var value := StrDup(s, i);
          return if value.None? then Wild else Pair(k.value, value.value);
        }
        if ch == '#' {
          var ended := SkipRest();
          if !ended {
            return End;
          }
        } else if ch == '=' {
          k := StrDup(s, i);
          if k.None? {
            return Wild;
          }
          Clear(s);
          i := 0;
        } else if !Space(ch) && ch != '\n' {
          if i == BUFFER {
            return Wild;
          }
          Put(s, i, ch);
          i := i + 1;
        }
      }
    }
  }

  /** The records hold these sections, each in arrays of its own. */
  ghost predicate Stand(records: seq<SectionRecord>, sections: seq<Section>)
    reads records, set r | r in records :: r.pairs
  {
    && |records| == |sections|
    && (forall i :: 0 <= i < |records| ==>
          records[i].Valid() && records[i].count <= MAX_CONFIGS && records[i].Contents() == sections[i])
    && (forall i, j :: 0 <= i < j < |records| ==> records[i] != records[j] && records[i].pairs != records[j].pairs)
  }

  /** A new section at the end, or a pair in the newest one. */
  method AddEntry(records: seq<SectionRecord>, ghost sections: seq<Section>, line: Line)
    returns (more: seq<SectionRecord>, ok: bool)
    requires Stand(records, sections) && (line.Header? || line.Pair?)
    modifies records, set r | r in records :: r.pairs
    ensures ok == Extend(sections, EntryOf(line)).Some?
    ensures ok ==> Stand(more, Extend(sections, EntryOf(line)).value)
    ensures forall r :: r in more && r !in records ==> fresh(r) && fresh(r.pairs)
  {
    var n := |records|;
    if line.Header? {
      if n >= MAX_CONFIGS {
        return records, false;
      }
      var section := new SectionRecord(line.name);
      return records + [section], true;
    }
    if n == 0 {
      return records, false;
    }
    ok := records[n - 1].AddPair(line.key, line.value);
    more := records;
  }

  /** ini_parse */
  method IniParse(file: string) returns (records: seq<SectionRecord>, stopped: bool)
    ensures stopped == Parse(file, []).Stopped?
    ensures !stopped ==> Stand(records, Parse(file, []).sections)
  {
    var reader := new Reader(file);
    records := [];
    ghost var sections: seq<Section> := [];
    while true
      invariant reader.Valid() && fresh(reader) && Stand(records, sections)
      invariant forall r :: r in records ==> fresh(r) && fresh(r.pairs)
      invariant Parse(reader.Ahead(), sections) == Parse(file, [])
      decreases |reader.Ahead()|
    {
      var line := reader.ReadLine();
      if line.End? || line.Wild? {
        return records, line.Wild?;
      }
      ghost var entry := EntryOf(line);
      var ok;
      records, ok := AddEntry(records, sections, line);
      if !ok {
        return records, true;
      }
      sections := Extend(sections, entry).value;
    }
  }
}
