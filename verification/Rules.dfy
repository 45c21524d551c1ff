/** Compiled rules and the literal form of repository patterns
    (internal/rules/compile.go, literal.go). */
module Rules {
  import opened Manifests

  /** The characters regexp.QuoteMeta escapes. */
  const META := "\\.+*?()|[]{}^$"

  predicate RepoNameChar(c: char)
  {
    'a' <= c <= 'z' || 'A' <= c <= 'Z' || '0' <= c <= '9' || c == '.' || c == '_' || c == '-' || c == '/'
  }

  /** A text that can name a repository: not empty, and of name characters only. */
  ghost predicate PlainName(name: string)
  {
    name != "" && forall i | 0 <= i < |name| :: RepoNameChar(name[i])
  }

  function Quote(literal: string): string
  {
    if literal == "" then "" else
    (if literal[0] in META then ['\\', literal[0]] else [literal[0]]) + Quote(literal[1..])
  }

  function Anchor(literal: string): string
  {
    "^" + Quote(literal) + "$"
  }

  /** The plain name a pattern body spells, if it spells one. */
  function Unquote(body: string): Option<string>
  {
    if body == "" then Some("")
    else
      var escaped := body[0] == '\\';
      if escaped && (|body| == 1 || body[1] !in META) then None
      else if !escaped && body[0] in META then None
      else
        var c := if escaped then body[1] else body[0];
        if !RepoNameChar(c) then None
        else
          var rest := Unquote(body[if escaped then 2 else 1..]);
          if rest.None? then None else Some([c] + rest.value)
  }

  function LiteralName(text: string): Option<string>
  {
    if |text| < 2 || text[0] != '^' || text[|text| - 1] != '$' then None
    else
      var name := Unquote(text[1..|text| - 1]);
      if name == Some("") then None else name
  }

  /** A body without an active metacharacter: plain characters and escaped metacharacters. */
  predicate Fixed(body: string)
  {
    body == "" ||
    if body[0] == '\\' then |body| > 1 && body[1] in META && Fixed(body[2..])
    else body[0] !in META && Fixed(body[1..])
  }

  /** The text is what such a body spells, character by character. */
  predicate Reads(body: string, s: string)
    requires Fixed(body)
  {
    if body == "" then s == "" else
    var step := if body[0] == '\\' then 2 else 1;
    s != "" && s[0] == body[step - 1] && Reads(body[step..], s[1..])
  }

  predicate FixedText(text: string)
  {
    |text| >= 2 && text[0] == '^' && text[|text| - 1] == '$' && Fixed(text[1..|text| - 1])
  }

  /** The anchored pattern of a literal, or any other pattern. One that is anchored and has no active
      metacharacter reads its text; of the others only the language is known, and anyName marks those
      recognised as matching every repository name. */
  datatype Regex = Anchored(literal: string) | Pattern(source: string, anyName: bool, language: string -> bool)
  {
    function Text(): string
    {
      if Anchored? then Anchor(literal) else source
    }

    predicate Matches(s: string)
    {
      if Anchored? then s == literal
      else if FixedText(source) then Reads(source[1..|source| - 1], s)
      else (anyName && s != "" && '\n' !in s) || language(s)
    }

    predicate MatchesAnyName()
    {
      Pattern? && !FixedText(source) && anyName
    }
  }

  datatype CommonRule = CommonRule(
    arch: Option<Regex>,
    os: Option<Regex>,
    digest: Option<Regex>,
    newest: int,
    newerThan: int,
    olderThan: int,
    keep: bool)

  datatype TaggedRule = TaggedRule(tag: Option<Regex>, common: CommonRule)

  datatype RepoRule = RepoRule(
    repo: Regex,
    ignoreMissing: bool,
    deleteOrphaned: bool,
    mustDeleteEverything: bool,
    untagged: seq<CommonRule>,
    tagged: seq<TaggedRule>)

  predicate MatchString(re: Option<Regex>, s: string)
  {
    re.None? || re.value.Matches(s)
  }

  predicate MatchAny(re: Option<Regex>, values: seq<string>)
  {
    re.None? || exists i | 0 <= i < |values| :: re.value.Matches(values[i])
  }

  /** The active characters, and those that occur in the name of a repository. */
  lemma CharactersExact(c: char)
    ensures c in META <==> c in {'^', '$', '.', '*', '+', '?', '(', ')', '[', ']', '{', '}', '|', '\\'}
    ensures RepoNameChar(c) <==>
            c in "abcdefghijklmnopqrstuvwxyz" || c in "ABCDEFGHIJKLMNOPQRSTUVWXYZ" || c in "0123456789" ||
            c in {'.', '_', '-', '/'}
  {
  }

  // ----- literal names

  lemma {:induction false} UnquoteQuote(name: string)
    ensures Unquote(Quote(name)) == if forall i | 0 <= i < |name| :: RepoNameChar(name[i]) then Some(name) else None
  {
    if name != "" {
      UnquoteQuote(name[1..]);
      var q := Quote(name);
      var step := if name[0] in META then 2 else 1;
      assert q[step..] == Quote(name[1..]);
      assert name == [name[0]] + name[1..];
      assert RepoNameChar(name[0]) && (forall i | 0 <= i < |name[1..]| :: RepoNameChar(name[1..][i])) <==>
             forall i | 0 <= i < |name| :: RepoNameChar(name[i]);
    }
  }

  lemma {:induction false} QuoteUnquote(body: string)
    requires Unquote(body).Some?
    ensures Quote(Unquote(body).value) == body
    ensures forall i | 0 <= i < |Unquote(body).value| :: RepoNameChar(Unquote(body).value[i])
  {
    if body != "" {
      var step := if body[0] == '\\' then 2 else 1;
      var c := if body[0] == '\\' then body[1] else body[0];
      QuoteUnquote(body[step..]);
      var name := Unquote(body).value;
      assert name[1..] == Unquote(body[step..]).value;
      assert body == body[..step] + body[step..];
    }
  }

  lemma AnchorRead(name: string)
    ensures LiteralName(Anchor(name)) == if PlainName(name) then Some(name) else None
  {
    var text := Anchor(name);
    assert text[1..|text| - 1] == Quote(name);
    UnquoteQuote(name);
    hide Unquote, Quote;
  }

  lemma LiteralSpells(text: string)
    requires LiteralName(text).Some?
    ensures text == Anchor(LiteralName(text).value) && PlainName(LiteralName(text).value)
  {
    var body := text[1..|text| - 1];
    QuoteUnquote(body);
    hide Unquote, Quote;
    assert text == [text[0]] + body + [text[|text| - 1]];
  }

  /** The pattern texts recognised as literal are exactly the anchored quotations of plain names. */
  lemma LiteralNameExact(text: string, name: string)
    ensures LiteralName(text) == Some(name) <==> text == Anchor(name) && PlainName(name)
  {
    hide LiteralName, Anchor, PlainName;
    AnchorRead(name);
    if LiteralName(text) == Some(name) {
      LiteralSpells(text);
    }
  }

  /** What a body spells is all it reads. */
  lemma {:induction false} UnquoteReads(body: string, s: string)
    requires Unquote(body).Some?
    ensures Fixed(body) && (Reads(body, s) <==> s == Unquote(body).value)
  {
    if body != "" {
      var step := if body[0] == '\\' then 2 else 1;
      var rest := Unquote(body[step..]).value;
      UnquoteReads(body[step..], if s == "" then "" else s[1..]);
      assert s != "" ==> s == [s[0]] + s[1..];
      assert ([body[step - 1]] + rest)[1..] == rest;
    }
  }

  /** The quotation of a literal reads that literal, which is what its anchored pattern matches. */
  lemma {:induction false} QuoteReads(literal: string, s: string)
    ensures Fixed(Quote(literal)) && (Reads(Quote(literal), s) <==> s == literal)
  {
    if literal != "" {
      var q := Quote(literal);
      var step := if literal[0] in META then 2 else 1;
      assert q[step..] == Quote(literal[1..]);
      QuoteReads(literal[1..], if s == "" then "" else s[1..]);
      assert literal == [literal[0]] + literal[1..];
      assert s != "" ==> s == [s[0]] + s[1..];
    }
  }

  /** Addressing a literal rule by name is sound: its pattern matches that name and no other. */
  lemma LiteralLanguage(re: Regex, name: string, s: string)
    requires LiteralName(re.Text()) == Some(name)
    ensures re.Matches(s) <==> s == name
  {
    if re.Anchored? {
      LiteralNameExact(re.Text(), name);
      assert Anchor(re.literal)[1..|Anchor(re.literal)| - 1] == Quote(re.literal);
      UnquoteQuote(re.literal);
    } else {
      UnquoteReads(re.source[1..|re.source| - 1], s);
      hide Unquote, Fixed, Reads;
    }
  }

  /** A pattern recognised as literal is not one for every name. */
  lemma LiteralNotAny(re: Regex)
    requires LiteralName(re.Text()).Some?
    ensures !re.MatchesAnyName()
  {
    if re.Pattern? {
      UnquoteReads(re.source[1..|re.source| - 1], "");
    }
  }

  /** What the scan has still to find, given the name read so far. */
  ghost function Pending(name: string, rest: string): Option<string>
  {
    if Unquote(rest).None? then None else Some(name + Unquote(rest).value)
  }

  lemma PendingStep(name: string, body: string, i: nat, step: nat)
    requires i < |body| && step == (if body[i] == '\\' then 2 else 1)
    ensures body[i] == '\\' && (i + 1 == |body| || body[i + 1] !in META) ==> Pending(name, body[i..]) == None
    ensures body[i] != '\\' && body[i] in META ==> Pending(name, body[i..]) == None
    ensures i + step <= |body| && !RepoNameChar(body[i + step - 1]) ==> Pending(name, body[i..]) == None
    ensures i + step <= |body| && RepoNameChar(body[i + step - 1]) && (body[i + step - 1] in META <==> step == 2) ==>
              Pending(name, body[i..]) == Pending(name + [body[i + step - 1]], body[i + step..])
  {
    var rest := body[i..];
    if i + step <= |body| {
      assert rest[step..] == body[i + step..];
      if Unquote(rest[step..]).Some? {
        var tail := Unquote(rest[step..]).value;
        assert name + ([body[i + step - 1]] + tail) == name + [body[i + step - 1]] + tail;
      }
    }
  }

  /** The scan of literal.go over the text of a pattern. */
  method ScanLiteralName(text: string) returns (r: Option<string>)
    ensures r == LiteralName(text)
  {
    if |text| == 0 || text[0] != '^' {
      return None;
    }
    var body := text[1..];
    if |body| == 0 || body[|body| - 1] != '$' {
      return None;
    }
    body := body[..|body| - 1];
    assert body == text[1..|text| - 1];
    var name := "";
    var i := 0;
    assert body[0..] == body && (Unquote(body).Some? ==> "" + Unquote(body).value == Unquote(body).value);
    while i < |body|
      invariant i <= |body|
      invariant Unquote(body) == Pending(name, body[i..])
    {
      PendingStep(name, body, i, if body[i] == '\\' then 2 else 1);
      var c := body[i];
      if c == '\\' {
        i := i + 1;
        if i == |body| || body[i] !in META {
          return None;
        }
        c := body[i];
      } else if c in META {
        return None;
      }
      if !RepoNameChar(c) {
        return None;
      }
      name := name + [c];
      i := i + 1;
    }
    assert Pending(name, "").value == name;
    if |name| == 0 {
      return None;
    }
    return Some(name);
  }
}
