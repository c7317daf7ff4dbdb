/** The `/query` route's own rules: input validation, the operation and
    table read off the statement for the audit log, which statements are
    audited, and the cap on returned rows. */
module QueryRoute {
  import opened JsStrings

  datatype Validation = Valid | Invalid(message: string)

  const NotAString := "A consulta deve ser uma string não vazia"
  const Blank := "A consulta não pode estar vazia"
  const TooLong := "Consulta muito longa (máximo 10.000 caracteres)"
  const MaxQueryLength := 10000

  /** `validateQuery`. The request field is `None` when it is absent or not
      a string. */
  function ValidateQuery(query: Option<string>): (v: Validation)
    ensures query.None? || query == Some("") ==> v == Invalid(NotAString)
    ensures query.Some? && query.value != "" && Trim(query.value) == "" ==> v == Invalid(Blank)
    ensures query.Some? && Trim(query.value) != "" && Utf16Length(Trim(query.value)) > MaxQueryLength ==>
      v == Invalid(TooLong)
    ensures v == Valid <==>
      query.Some? && Trim(query.value) != "" && Utf16Length(Trim(query.value)) <= MaxQueryLength
  {
    if query.None? || query.value == "" then Invalid(NotAString)
    else
      var trimmed := Trim(query.value);
      if |trimmed| == 0 then Invalid(Blank)
      else if Utf16Length(trimmed) > MaxQueryLength then Invalid(TooLong)
      else Valid
  }

  /** A query of white space only is refused as empty. */
  lemma WhitespaceRejected(query: string)
    requires query != ""
    requires forall i :: 0 <= i < |query| ==> IsJsSpace(query[i])
    ensures ValidateQuery(Some(query)) == Invalid(Blank)
  {
    TrimEmptyIffBlank(query);
  }

  /** `[^\s;]`: a character the table-name group accepts. */
  predicate NameChar(c: char) {
    !IsJsSpace(c) && c != ';'
  }

  /** `([^\s;]+)` taken greedily: the longest prefix of name characters. */
  function NameRun(s: string): (r: string)
    ensures |r| <= |s| && r == s[..|r|]
    ensures forall i :: 0 <= i < |r| ==> NameChar(r[i])
    ensures |r| < |s| ==> !NameChar(s[|r|])
    decreases |s|
  {
    if s != [] && NameChar(s[0]) then [s[0]] + NameRun(s[1..]) else []
  }

  /** The table group after `(?:into|from|)\s*` when the optional word
      is `word`, if that alternative can match. */
  function AfterWord(rest: string, word: string): Option<string> {
    if StartsWithIgnoreCase(rest, word) && NameRun(TrimStart(rest[|word|..])) != ""
    then Some(NameRun(TrimStart(rest[|word|..])))
    else None
  }

  /** The table group, given the text after the keyword's white space. The
      alternatives `into`, `from` and the empty word are tried in that
      order, as the regular-expression engine backtracks; `""` when none
      matches. */
  function TableGroup(rest: string): (r: string)
    ensures r != "" ==> rest != []
    ensures forall i :: 0 <= i < |r| ==> NameChar(r[i])
  {
    if AfterWord(rest, "into").Some? then AfterWord(rest, "into").value
    else if AfterWord(rest, "from").Some? then AfterWord(rest, "from").value
    else NameRun(rest)
  }

  /** The leading keyword, matched without regard to case; `""` when the
      query starts with none of them. */
  function Keyword(query: string): (k: string)
    ensures k in {"", "insert", "update", "delete", "select"}
    ensures k != "" ==> StartsWithIgnoreCase(query, k)
  {
    if StartsWithIgnoreCase(query, "insert") then "insert"
    else if StartsWithIgnoreCase(query, "update") then "update"
    else if StartsWithIgnoreCase(query, "delete") then "delete"
    else if StartsWithIgnoreCase(query, "select") then "select"
    else ""
  }

  /** `match[1].toUpperCase()`: whatever the case of the matched keyword,
      its upper-case form is the keyword's. */
  function Upper(keyword: string): string {
    if keyword == "insert" then "INSERT"
    else if keyword == "update" then "UPDATE"
    else if keyword == "delete" then "DELETE"
    else "SELECT"
  }

  /** The match of `/^(insert|update|delete|select)\s+(?:into|from|)\s*([^\s;]+)/i`
      on the untrimmed query: the keyword in upper case and the table
      group. */
  function Extract(query: string): (r: Option<(string, string)>)
    ensures r.Some? ==> Keyword(query) != "" && r.value.0 == Upper(Keyword(query))
    ensures r.Some? ==> r.value.1 != "" && forall i :: 0 <= i < |r.value.1| ==> NameChar(r.value.1[i])
  {
    var keyword := Keyword(query);
    var gap := query[|keyword|..];
    if keyword == "" || gap == [] || !IsJsSpace(gap[0]) then None
    else
      var table := TableGroup(TrimStart(gap));
      if table == "" then None
      else Some((Upper(keyword), table))
  }

  /** `operacao`: the upper-case keyword, `QUERY` when the pattern fails. */
  function Operation(query: string): string {
    match Extract(query)
    case None => "QUERY"
    case Some((op, _)) => op
  }

  /** `tabela`: the table group, `''` when the pattern fails. */
  function TableName(query: string): string {
    match Extract(query)
    case None => ""
    case Some((_, table)) => table
  }

  /** `/^(insert|update|delete)/i.test(query.trim())`. */
  predicate Audited(query: string) {
    var trimmed := Trim(query);
    StartsWithIgnoreCase(trimmed, "insert") || StartsWithIgnoreCase(trimmed, "update")
    || StartsWithIgnoreCase(trimmed, "delete")
  }

  /** White space folds to itself, so it never matches a letter. */
  lemma SpaceIsNoLetter(c: char, letter: char)
    requires IsJsSpace(c) && 'a' <= letter <= 'z'
    ensures AsciiLower(c) != AsciiLower(letter)
  {
  }

  lemma KeywordSurvivesTrim(query: string, keyword: string, i: int)
    requires StartsWithIgnoreCase(query, keyword) && |keyword| > 0
    requires !IsJsSpace(query[0])
    requires |keyword| <= i < |query| && !IsJsSpace(query[i])
    ensures StartsWithIgnoreCase(Trim(query), keyword)
  {
    var start := TrimStart(query);
    assert start == query;
    var trimmed := TrimEnd(start);
    assert |trimmed| > i;
    forall k | 0 <= k < |keyword|
      ensures AsciiLower(trimmed[k]) == AsciiLower(keyword[k])
    {
      assert trimmed[k] == query[k];
    }
  }

  /** When the pattern matches, the table group stands in the query past the
      six-letter keyword, so the query holds a non-blank character there. */
  lemma TableInQuery(query: string) returns (i: int)
    requires Extract(query).Some?
    ensures 6 <= i < |query| && !IsJsSpace(query[i])
  {
    var keyword := Keyword(query);
    var gap := query[6..];
    var rest := TrimStart(gap);
    assert TableGroup(rest) != "";
    i := |query| - |rest|;
    assert query[i] == rest[0];
  }

  /** Every statement whose operation is read as INSERT, UPDATE or DELETE is
      audited. */
  lemma DmlOperationAudited(query: string)
    requires Operation(query) in {"INSERT", "UPDATE", "DELETE"}
    ensures Audited(query)
  {
    var keyword := Keyword(query);
    assert keyword in {"insert", "update", "delete"};
    assert !IsJsSpace(query[0]) by {
      if IsJsSpace(query[0]) {
        SpaceIsNoLetter(query[0], keyword[0]);
      }
    }
    var i := TableInQuery(query);
    KeywordSurvivesTrim(query, keyword, i);
  }

  /** The pattern is anchored at the very start: a query with leading white
      space never matches it. */
  lemma LeadingSpaceNoMatch(query: string)
    requires query != [] && IsJsSpace(query[0])
    ensures Operation(query) == "QUERY" && TableName(query) == ""
  {
    if Keyword(query) != "" {
      SpaceIsNoLetter(query[0], Keyword(query)[0]);
    }
  }

  /** The two rules read the statement differently: a space before an
      INSERT, UPDATE or DELETE statement defeats the anchored pattern but not
      the trimmed audit test, so the statement is still audited, with
      operation `QUERY` and no table. */
  lemma LeadingSpaceAuditedAsQuery(statement: string)
    requires Operation(statement) in {"INSERT", "UPDATE", "DELETE"}
    ensures Audited(" " + statement)
    ensures Operation(" " + statement) == "QUERY" && TableName(" " + statement) == ""
  {
    DmlOperationAudited(statement);
    var spaced := " " + statement;
    assert spaced[1..] == statement;
    assert TrimStart(spaced) == TrimStart(statement);
    LeadingSpaceNoMatch(spaced);
  }

  const RowCap := 1000

  /** The rows sent back and the `limited` flag. A result that is not an
      array (`None`) is passed through and never flagged. */
  function LimitRows<T>(data: Option<seq<T>>): (r: (Option<seq<T>>, bool))
    ensures data.None? ==> r == (None, false)
    ensures data.Some? ==> r.0.Some? && |r.0.value| == if |data.value| > RowCap then RowCap else |data.value|
    ensures data.Some? ==> r.0.value == data.value[..|r.0.value|]
    ensures r.1 <==> data.Some? && |data.value| > RowCap
  {
    match data
    case None => (None, false)
    case Some(rows) =>
      if |rows| > RowCap then (Some(rows[..RowCap]), true) else (Some(rows), false)
  }
}
