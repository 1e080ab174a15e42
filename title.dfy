/**
 * The issue-title check of process_issues.py (`_validate_title`).
 *
 * A title must contain `deposit <domain> <schema>:<identifier>`, located with
 * `re.search(r"deposit\s+(.+?)\s+([a-zA-Z]+):(.+)", title, re.IGNORECASE)`. The schema
 * token, lower-cased, must name one of eight identifier schemas, and the identifier is then
 * judged by that schema's identifier manager (an external library, a parameter here).
 *
 * The regular expression is modelled by a declarative match (`IsMatch`, where each group
 * begins and ends) together with the order in which Python's backtracking engine tries the
 * alternatives (`Precedes`); `TitleMatch` computes the match `re.search` reports and is
 * proved to be the first match in that order.
 */
module Title {
  import opened Wrappers
  import opened Text
  import opened Messages

  const Keyword := "deposit"

  /** The three character classes of the pattern: `\s`, `[a-zA-Z]` and `.` (no re.DOTALL). */
  datatype Class = Whitespace | Letter | LineChar {
    predicate Has(c: char) {
      match this
      case Whitespace => IsSpace(c)
      case Letter => ('a' <= c <= 'z') || ('A' <= c <= 'Z')
      case LineChar => c != '\n'
    }
  }

  /** Every character of `s[i..j]` is in class `k`. */
  predicate AllIn(s: string, i: nat, j: nat, k: Class)
    requires i <= j <= |s|
  {
    forall x {:trigger k.Has(s[x])} :: i <= x < j ==> k.Has(s[x])
  }

  /** Length of the longest run of characters of class `k` from position `i`. */
  function Run(s: string, i: nat, k: Class): (n: nat)
    requires i <= |s|
    ensures i + n <= |s| && AllIn(s, i, i + n, k)
    ensures i + n < |s| ==> !k.Has(s[i + n])
    decreases |s| - i
  {
    if i < |s| && k.Has(s[i]) then 1 + Run(s, i + 1, k) else 0
  }

  /** `deposit` at position `i`, compared without regard to (ASCII) case. */
  predicate KeywordAt(s: string, i: nat) {
    i + |Keyword| <= |s| && Lower(s[i..i + |Keyword|]) == Keyword
  }

  /**
   * Where a match of the pattern lies: `deposit` at `s[start..start+7]`, the first `\s+` is
   * `s[start+7..a]`, the domain group `(.+?)` is `s[a..b]`, the second `\s+` is `s[b..c]`,
   * the schema group `([a-zA-Z]+)` is `s[c..d]`, the colon is `s[d]` and the identifier
   * group `(.+)` is `s[d+1..e]`.
   */
  datatype Span = Span(start: nat, a: nat, b: nat, c: nat, d: nat, e: nat)

  ghost predicate IsMatch(s: string, m: Span) {
    && KeywordAt(s, m.start)
    && m.start + |Keyword| < m.a
    && MatchesFrom(s, m)
    && AllIn(s, m.start + |Keyword|, m.a, Whitespace)
  }

  /** The part of a match after the first `\s+`: the domain, the schema and the identifier. */
  ghost predicate MatchesFrom(s: string, m: Span) {
    && m.a < m.b < m.c < m.d && m.d + 1 < m.e <= |s|
    && AllIn(s, m.a, m.b, LineChar)
    && AllIn(s, m.b, m.c, Whitespace)
    && AllIn(s, m.c, m.d, Letter)
    && s[m.d] == ':'
    && AllIn(s, m.d + 1, m.e, LineChar)
  }

  /**
   * `m` is tried before `n` by `re.search`: leftmost start first; then the greedy `\s+`
   * longest first, the lazy domain shortest first, and the remaining greedy groups longest
   * first.
   */
  predicate Precedes(m: Span, n: Span) {
    || m.start < n.start
    || (m.start == n.start && m.a > n.a)
    || (m.start == n.start && m.a == n.a && m.b < n.b)
    || (m.start == n.start && m.a == n.a && m.b == n.b && m.c > n.c)
    || (m.start == n.start && m.a == n.a && m.b == n.b && m.c == n.c && m.d > n.d)
    || (m.start == n.start && m.a == n.a && m.b == n.b && m.c == n.c && m.d == n.d && m.e > n.e)
  }

  // ---------------------------------------------------------------- the search

  /**
   * Once the domain group ends at `b`, the rest `\s+([a-zA-Z]+):(.+)` can only match with
   * both greedy runs at full length, and `(.+)` then takes the rest of the line.
   */
  function TailFrom(s: string, start: nat, a: nat, b: nat): Option<Span>
    requires b <= |s|
  {
    var c := b + Run(s, b, Whitespace);
    var d := c + Run(s, c, Letter);
    if c == b || d == c || d == |s| || s[d] != ':' then None
    else
      var e := d + 1 + Run(s, d + 1, LineChar);
      if e == d + 1 then None else Some(Span(start, a, b, c, d, e))
  }

  /** The lazy domain group: try the ends `b`, `b + 1`, ... up to the end of the line. */
  function SearchDomain(s: string, start: nat, a: nat, b: nat): Option<Span>
    requires a < b
    decreases |s| + 1 - b
  {
    if b > |s| || s[b - 1] == '\n' then None
    else match TailFrom(s, start, a, b)
      case Some(m) => Some(m)
      case None => SearchDomain(s, start, a, b + 1)
  }

  /** The greedy first `\s+`: try the ends `a`, `a - 1`, ... down to one space. */
  function SearchSpaces(s: string, start: nat, a: nat): Option<Span>
    decreases a
  {
    if a <= start + |Keyword| then None
    else match SearchDomain(s, start, a, a + 1)
      case Some(m) => Some(m)
      case None => SearchSpaces(s, start, a - 1)
  }

  function SearchAt(s: string, start: nat): Option<Span>
    requires start <= |s|
  {
    if KeywordAt(s, start) then
      SearchSpaces(s, start, start + |Keyword| + Run(s, start + |Keyword|, Whitespace))
    else None
  }

  /** `re.search`: the first start position, from `i` on, at which the pattern matches. */
  function SearchFrom(s: string, i: nat): Option<Span>
    requires i <= |s| + 1
    decreases |s| + 1 - i
  {
    if i > |s| then None
    else match SearchAt(s, i)
      case Some(m) => Some(m)
      case None => SearchFrom(s, i + 1)
  }

  // ---------------------------------------------------------------- the search is re.search

  lemma TailFromSound(s: string, start: nat, a: nat, b: nat)
    requires a < b <= |s| && AllIn(s, a, b, LineChar)
    ensures TailFrom(s, start, a, b).Some? ==>
      var m := TailFrom(s, start, a, b).value;
      MatchesFrom(s, m) && m.start == start && m.a == a && m.b == b
  {
  }

  lemma TailFromFirst(s: string, start: nat, a: nat, b: nat)
    requires b <= |s|
    ensures forall n :: IsMatch(s, n) && n.start == start && n.a == a && n.b == b ==>
      var r := TailFrom(s, start, a, b);
      r.Some? && r.value.c == n.c && r.value.d == n.d && r.value.e >= n.e
  {
    var c := b + Run(s, b, Whitespace);
    forall n | IsMatch(s, n) && n.start == start && n.a == a && n.b == b
      ensures var r := TailFrom(s, start, a, b);
        r.Some? && r.value.c == n.c && r.value.d == n.d && r.value.e >= n.e
    {
      // the second `\s+` stops at the schema's first letter, the schema at the colon
      assert Letter.Has(s[n.c]) && !Whitespace.Has(s[n.c]);
      assert c == n.c;
      var d := c + Run(s, c, Letter);
      assert !Letter.Has(s[n.d]);
      assert d == n.d;
      assert LineChar.Has(s[d + 1]);
    }
  }

  lemma {:induction false} SearchDomainSound(s: string, start: nat, a: nat, b: nat)
    requires a < b <= |s| + 1 && AllIn(s, a, b - 1, LineChar)
    ensures SearchDomain(s, start, a, b).Some? ==>
      var m := SearchDomain(s, start, a, b).value;
      MatchesFrom(s, m) && m.start == start && m.a == a && m.b >= b
    decreases |s| + 1 - b
  {
    if b <= |s| && s[b - 1] != '\n' {
      assert AllIn(s, a, b, LineChar);
      TailFromSound(s, start, a, b);
      if TailFrom(s, start, a, b).None? {
        SearchDomainSound(s, start, a, b + 1);
      }
    }
  }

  lemma {:induction false} SearchDomainFirst(s: string, start: nat, a: nat, b: nat)
    requires a < b
    ensures forall n :: IsMatch(s, n) && n.start == start && n.a == a && n.b >= b ==>
      var r := SearchDomain(s, start, a, b);
      r.Some? && (r.value == n || Precedes(r.value, n))
    decreases |s| + 1 - b
  {
    // a domain group ending at or after b covers s[b - 1]
    forall n | IsMatch(s, n) && n.start == start && n.a == a && n.b >= b
      ensures b <= |s| && s[b - 1] != '\n'
    {
      assert LineChar.Has(s[b - 1]);
    }
    if b <= |s| && s[b - 1] != '\n' {
      TailFromFirst(s, start, a, b);
      if TailFrom(s, start, a, b).None? {
        SearchDomainFirst(s, start, a, b + 1);
      }
    }
  }

  lemma {:induction false} SearchSpacesSound(s: string, start: nat, a: nat)
    requires KeywordAt(s, start) && start + |Keyword| <= a <= |s|
    requires AllIn(s, start + |Keyword|, a, Whitespace)
    ensures SearchSpaces(s, start, a).Some? ==>
      var m := SearchSpaces(s, start, a).value;
      IsMatch(s, m) && m.start == start && m.a <= a
    decreases a
  {
    if a > start + |Keyword| {
      SearchDomainSound(s, start, a, a + 1);
      if SearchDomain(s, start, a, a + 1).None? {
        SearchSpacesSound(s, start, a - 1);
      }
    }
  }

  lemma {:induction false} SearchSpacesFirst(s: string, start: nat, a: nat)
    requires a <= |s|
    ensures forall n :: IsMatch(s, n) && n.start == start && n.a <= a ==>
      var r := SearchSpaces(s, start, a);
      r.Some? && (r.value == n || Precedes(r.value, n))
    decreases a
  {
    if a > start + |Keyword| {
      SearchDomainSound(s, start, a, a + 1);
      SearchDomainFirst(s, start, a, a + 1);
      if SearchDomain(s, start, a, a + 1).None? {
        SearchSpacesFirst(s, start, a - 1);
      }
    }
  }

  /** The first `\s+` of any match lies within the run of spaces after the keyword. */
  lemma FirstSpacesWithinRun(s: string, n: Span)
    requires IsMatch(s, n)
    ensures n.a <= n.start + |Keyword| + Run(s, n.start + |Keyword|, Whitespace)
  {
    var amax := n.start + |Keyword| + Run(s, n.start + |Keyword|, Whitespace);
    assert amax < |s| ==> !Whitespace.Has(s[amax]);
  }

  lemma SearchAtCorrect(s: string, start: nat)
    requires start <= |s|
    ensures SearchAt(s, start).Some? ==>
      IsMatch(s, SearchAt(s, start).value) && SearchAt(s, start).value.start == start
    ensures forall n :: IsMatch(s, n) && n.start == start ==>
      var r := SearchAt(s, start);
      r.Some? && (r.value == n || Precedes(r.value, n))
  {
    if KeywordAt(s, start) {
      var amax := start + |Keyword| + Run(s, start + |Keyword|, Whitespace);
      SearchSpacesSound(s, start, amax);
      SearchSpacesFirst(s, start, amax);
      forall n | IsMatch(s, n) && n.start == start ensures n.a <= amax {
        FirstSpacesWithinRun(s, n);
      }
    }
  }

  lemma {:induction false} SearchFromCorrect(s: string, i: nat)
    requires i <= |s| + 1
    ensures SearchFrom(s, i).Some? ==>
      IsMatch(s, SearchFrom(s, i).value) && SearchFrom(s, i).value.start >= i
    ensures forall n :: IsMatch(s, n) && n.start >= i ==>
      var r := SearchFrom(s, i);
      r.Some? && (r.value == n || Precedes(r.value, n))
    decreases |s| + 1 - i
  {
    if i <= |s| {
      SearchAtCorrect(s, i);
      if SearchAt(s, i).None? {
        SearchFromCorrect(s, i + 1);
      }
    }
  }

  /**
   * The match `re.search` reports: a match of the pattern, and the first one in the
   * engine's order, so there is none exactly when no placement of the groups fits.
   */
  function TitleMatch(title: string): (r: Option<Span>)
    ensures r.Some? ==> IsMatch(title, r.value)
    ensures forall n :: IsMatch(title, n) ==> r.Some? && (r.value == n || Precedes(r.value, n))
  {
    SearchFromCorrect(title, 0);
    SearchFrom(title, 0)
  }

  // ---------------------------------------------------------------- schemas

  /** The closed table of supported identifier schemas. */
  datatype Schema = Doi | Isbn | Pmid | Pmcid | Url | Wikidata | Wikipedia | OpenAlex {
    function Name(): string {
      match this
      case Doi => "doi"
      case Isbn => "isbn"
      case Pmid => "pmid"
      case Pmcid => "pmcid"
      case Url => "url"
      case Wikidata => "wikidata"
      case Wikipedia => "wikipedia"
      case OpenAlex => "openalex"
    }

    /** Every schema except ISBN is checked with the online API service. */
    predicate UsesApi() {
      this != Isbn
    }
  }

  /** `manager_map.get(name)`: the schema called `name`, if there is one. */
  function SchemaNamed(name: string): (r: Option<Schema>)
    ensures r.Some? ==> r.value.Name() == name
    ensures r.None? ==> forall x: Schema :: x.Name() != name
  {
    if name == "doi" then Some(Doi)
    else if name == "isbn" then Some(Isbn)
    else if name == "pmid" then Some(Pmid)
    else if name == "pmcid" then Some(Pmcid)
    else if name == "url" then Some(Url)
    else if name == "wikidata" then Some(Wikidata)
    else if name == "wikipedia" then Some(Wikipedia)
    else if name == "openalex" then Some(OpenAlex)
    else None
  }

  // ---------------------------------------------------------------- _validate_title

  /** The `(is_valid, message)` pair returned by the title and body checks. */
  datatype Verdict = Verdict(valid: bool, message: Message)

  /**
   * An identifier manager's `is_valid`: given the schema, whether the manager was built
   * with `use_api_service=True`, and the identifier's literal value.
   */
  type IdCheck = (Schema, bool, string) -> bool

  /** The schema token (group 2) of a match, lower-cased. */
  function SchemaToken(title: string, m: Span): string
    requires m.c <= m.d <= |title|
  {
    Lower(title[m.c..m.d])
  }

  /** The identifier (group 3) of a match. */
  function Identifier(title: string, m: Span): string
    requires m.d + 1 <= m.e <= |title|
  {
    title[m.d + 1..m.e]
  }

  function ValidateTitle(title: string, isValid: IdCheck): (r: Verdict)
    ensures r.valid ==> r.message == Blank
    ensures r.message.AboutTitle()
  {
    match TitleMatch(title)
    case None => Verdict(false, BadFormat)
    case Some(m) =>
      var name := SchemaToken(title, m);
      var identifier := Identifier(title, m);
      match SchemaNamed(name)
      case None => Verdict(false, UnsupportedSchema(name))
      case Some(schema) =>
        if isValid(schema, schema.UsesApi(), identifier) then Verdict(true, Blank)
        else Verdict(false, InvalidIdentifier(identifier, name))
  }

  /** The fixed format message is returned exactly when no part of the title matches. */
  lemma BadFormatIffNoMatch(title: string, isValid: IdCheck)
    ensures ValidateTitle(title, isValid) == Verdict(false, BadFormat)
        <==> forall m :: !IsMatch(title, m)
  {
  }

  /**
   * The title is accepted exactly when it matches, its schema token names a supported
   * schema, and that schema's manager (online for all but ISBN) accepts the identifier.
   */
  lemma AcceptedIff(title: string, isValid: IdCheck)
    ensures ValidateTitle(title, isValid).valid <==>
      && TitleMatch(title).Some?
      && var m := TitleMatch(title).value;
         && SchemaNamed(SchemaToken(title, m)).Some?
         && var schema := SchemaNamed(SchemaToken(title, m)).value;
            isValid(schema, schema != Isbn, Identifier(title, m))
  {
  }

  /** A schema token outside the table is reported by name, whatever the identifier. */
  lemma UnsupportedSchemaReported(title: string, isValid: IdCheck)
    requires TitleMatch(title).Some?
    requires SchemaNamed(SchemaToken(title, TitleMatch(title).value)).None?
    ensures ValidateTitle(title, isValid)
         == Verdict(false, UnsupportedSchema(SchemaToken(title, TitleMatch(title).value)))
  {
  }

  /**
   * A supported schema whose manager rejects the identifier is reported with the identifier
   * and the schema token as the title spells them.
   */
  lemma InvalidIdentifierReported(title: string, isValid: IdCheck)
    requires TitleMatch(title).Some?
    requires SchemaNamed(SchemaToken(title, TitleMatch(title).value)).Some?
    requires var m := TitleMatch(title).value;
      var schema := SchemaNamed(SchemaToken(title, m)).value;
      !isValid(schema, schema != Isbn, Identifier(title, m))
    ensures var m := TitleMatch(title).value;
      ValidateTitle(title, isValid) == Verdict(false, InvalidIdentifier(Identifier(title, m), SchemaToken(title, m)))
  {
  }

  // ---------------------------------------------------------------- titles of a known shape

  /**
   * When a title's characters leave room for only one placement of the groups starting at
   * position 0 and running to the end, that placement is the one reported.
   */
  lemma TitleMatchIs(s: string, m0: Span)
    requires IsMatch(s, m0) && m0.start == 0 && m0.e == |s|
    requires forall k :: m0.a <= k < m0.b ==> !Whitespace.Has(s[k])
    ensures TitleMatch(s) == Some(m0)
  {
    var m := TitleMatch(s).value;
    assert m == m0 || Precedes(m, m0);
    assert m.start == 0;
    assert !Whitespace.Has(s[m0.a]);
    assert m.a == m0.a;
    assert Whitespace.Has(s[m.b]);
    assert m.b == m0.b;
    assert Letter.Has(s[m0.c]) && !Whitespace.Has(s[m0.c]);
    assert m.c == m0.c;
    assert !Letter.Has(s[m0.d]) && s[m.d] == ':';
    assert m.d == m0.d;
  }

  predicate NoSpace(t: string) {
    forall k :: 0 <= k < |t| ==> !IsSpace(t[k])
  }

  predicate Letters(t: string) {
    forall k :: 0 <= k < |t| ==> Letter.Has(t[k])
  }

  predicate SingleLine(t: string) {
    forall k :: 0 <= k < |t| ==> t[k] != '\n'
  }

  function Structured(domain: string, token: string, identifier: string): string {
    "deposit " + domain + " " + token + ":" + identifier
  }

  lemma KeywordAtStart(s: string)
    requires |s| >= 7 && s[..7] == "deposit"
    ensures KeywordAt(s, 0)
  {
    assert Lower(s[0..7]) == "deposit";
  }

  /**
   * `deposit <domain> <token>:<identifier>` with a domain free of whitespace: the groups are
   * exactly the domain, the token and the identifier.
   */
  lemma StructuredTitleMatch(domain: string, token: string, identifier: string)
    requires domain != [] && NoSpace(domain)
    requires token != [] && Letters(token)
    requires identifier != [] && SingleLine(identifier)
    ensures var title := Structured(domain, token, identifier);
      && TitleMatch(title).Some?
      && SchemaToken(title, TitleMatch(title).value) == Lower(token)
      && Identifier(title, TitleMatch(title).value) == identifier
  {
    var s := Structured(domain, token, identifier);
    var m0 := StructuredSpan(domain, token, identifier);
    StructuredIsMatch(domain, token, identifier);
    TitleMatchIs(s, m0);
  }

  /** Where the groups of a structured title lie. */
  function StructuredSpan(domain: string, token: string, identifier: string): Span {
    var b := 8 + |domain|;
    Span(0, 8, b, b + 1, b + 1 + |token|, |Structured(domain, token, identifier)|)
  }

  lemma StructuredIsMatch(domain: string, token: string, identifier: string)
    requires domain != [] && NoSpace(domain)
    requires token != [] && Letters(token)
    requires identifier != [] && SingleLine(identifier)
    ensures var s, m0 := Structured(domain, token, identifier), StructuredSpan(domain, token, identifier);
      && IsMatch(s, m0) && m0.start == 0 && m0.e == |s|
      && (forall k :: m0.a <= k < m0.b ==> !Whitespace.Has(s[k]))
      && s[m0.c..m0.d] == token && s[m0.d + 1..] == identifier
  {
    var s := Structured(domain, token, identifier);
    var b := 8 + |domain|;
    var c := b + 1;
    var d := c + |token|;
    StructuredPieces(domain, token, identifier);
    KeywordAtStart(s);
    assert forall k :: 0 <= k < |domain| ==> LineChar.Has(domain[k]);
    AllInPiece(s, 8, domain, LineChar);
    AllInPiece(s, c, token, Letter);
    AllInPiece(s, d + 1, identifier, LineChar);
    assert AllIn(s, 7, 8, Whitespace) && AllIn(s, b, c, Whitespace);
  }

  /** Where the keyword, the spaces, the colon and the three parts lie in a structured title. */
  lemma StructuredPieces(domain: string, token: string, identifier: string)
    ensures var s, b := Structured(domain, token, identifier), 8 + |domain|;
      && |s| == b + 1 + |token| + 1 + |identifier|
      && s[..7] == "deposit" && s[7] == ' ' && s[b] == ' ' && s[b + 1 + |token|] == ':'
      && s[8..b] == domain && s[b + 1..b + 1 + |token|] == token && s[b + 1 + |token| + 1..] == identifier
  {
    var s := Structured(domain, token, identifier);
    var b := 8 + |domain|;
    assert s == "deposit " + domain + " " + token + ":" + identifier;
  }

  /** A piece of `s` whose characters are all in a class gives a run of that class. */
  lemma AllInPiece(s: string, i: nat, t: string, k: Class)
    requires i + |t| <= |s| && s[i..i + |t|] == t
    requires forall j :: 0 <= j < |t| ==> k.Has(t[j])
    ensures AllIn(s, i, i + |t|, k)
  {
    forall x | i <= x < i + |t| ensures k.Has(s[x]) {
      assert s[x] == t[x - i];
    }
  }

  /** No run of whitespace lies past position 8. */
  lemma NoSpaceRun(s: string, i: nat, j: nat)
    requires 8 <= i < j <= |s|
    requires forall k :: 8 <= k < |s| ==> !Whitespace.Has(s[k])
    ensures !AllIn(s, i, j, Whitespace)
  {
    assert !Whitespace.Has(s[i]);
  }

  /** "deposit doi:..." with no domain fails the format check (an identifier without whitespace). */
  lemma MissingDomainRejected(identifier: string, isValid: IdCheck)
    requires NoSpace(identifier)
    ensures ValidateTitle("deposit doi:" + identifier, isValid) == Verdict(false, BadFormat)
  {
    var s := "deposit doi:" + identifier;
    assert s[8..12] == "doi:";
    assert s[12..] == identifier;
    assert forall k :: 8 <= k < |s| ==> !Whitespace.Has(s[k]);
    forall m ensures !IsMatch(s, m) {
      if 8 <= m.b < m.c <= |s| {
        NoSpaceRun(s, m.b, m.c);
      }
    }
    BadFormatIffNoMatch(s, isValid);
  }

  /**
   * With three spaces after `deposit`, backtracking gives one of them to the domain group:
   * "deposit   doi:<identifier>" passes the format check with a blank domain.
   */
  lemma BlankDomainAccepted(identifier: string)
    requires identifier != [] && NoSpace(identifier)
    ensures var title := "deposit   doi:" + identifier;
      && TitleMatch(title).Some?
      && var m := TitleMatch(title).value;
         && title[m.a..m.b] == " "
         && SchemaToken(title, m) == "doi"
         && Identifier(title, m) == identifier
  {
    var s := "deposit   doi:" + identifier;
    var m0 := Span(0, 8, 9, 10, 13, |s|);
    BlankDomainShape(identifier);
    var m := TitleMatch(s).value;
    assert m == m0 || Precedes(m, m0);
    assert m.start == 0;
    assert Whitespace.Has(s[m.b]);
    assert m.b == 9;
    assert m.a == 8;
    assert !Whitespace.Has(s[10]);
    assert m.c == 10;
    assert !Letter.Has(s[13]) && s[m.d] == ':';
    assert m.d == 13;
  }

  /** The characters of "deposit   doi:<identifier>", and the placement with a one-space domain. */
  lemma BlankDomainShape(identifier: string)
    requires identifier != [] && NoSpace(identifier)
    ensures var s := "deposit   doi:" + identifier;
      && IsMatch(s, Span(0, 8, 9, 10, 13, |s|))
      && s[7..14] == "   doi:" && s[14..] == identifier
      && s[8..9] == " " && Lower(s[10..13]) == "doi"
      && (forall k :: 10 <= k < |s| ==> !Whitespace.Has(s[k]))
  {
    var s := "deposit   doi:" + identifier;
    assert s[..7] == "deposit";
    KeywordAtStart(s);
    assert s[7..14] == "   doi:";
    assert s[14..] == identifier;
    assert forall k :: 10 <= k < |s| ==> !Whitespace.Has(s[k]);
  }
}
