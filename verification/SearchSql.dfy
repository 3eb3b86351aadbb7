/**
 The search compiled to SQL.  A statement is a tree whose string literals keep their SQL
 text: evaluating one reads the text back, so wrong quoting changes the meaning.
 */
module SearchSql {
  import opened Wrappers
  import opened SqlText

  datatype Field =
    | ElementName | FileName | ImagePath
    | Make | Model | Lens | LensMake | DateTimeString | Metadata | Iso | FocalLength | Aperture
    | AiCaption | AiTagsJson | SemanticLabels

  datatype Mask = Mask(filename: bool, exif: bool, aiDescription: bool, aiTags: bool)

  const NO_FIELDS := Mask(false, false, false, false)

  /** How characters fold, which ones `iswspace` takes for spaces, and at which ones a stream ends a word. */
  datatype Locale = Locale(lower: char -> char, space: char -> bool, delimiter: char -> bool)

  /** One row: its columns, which may be NULL, its date, and its full-text index entry. */
  datatype Row = Row(value: Field -> Option<string>, onDate: string -> bool, fullText: string -> bool)

  /** The active model, if any, and the canonical label and aliases of a word. */
  datatype Labels = Labels(active: bool, aliases: string -> seq<string>)

  datatype Expr =
    | Column(field: Field)
    | Text(sql: string)
    | Coalesce(arg: Expr)
    | Lower(arg: Expr)
    | Replace(arg: Expr, from: Expr, to: Expr)
    | Document(parts: seq<Option<Field>>)

  datatype Cond =
    | ContainsCall(hay: Expr, needle: Expr)
    | LikeEscape(hay: Expr, pattern: Expr, escape: char)
    | DateTest(token: string)
    | FullTextMatch(query: Expr)
    | Or(args: seq<Cond>)
    | And(args: seq<Cond>)
    | Never

  // --------------------------------------------------------- what SQL does

  function LowerAll(loc: Locale, s: string): string {
    seq(|s|, i requires 0 <= i < |s| => loc.lower(s[i]))
  }

  function OrEmpty(v: Option<string>): string {
    if v.Some? then v.value else ""
  }

  /** A part of the document: a column with NULL as the empty text, or no text at all. */
  function PartText(row: Row, part: Option<Field>): string {
    if part.None? then "" else OrEmpty(row.value(part.value))
  }

  function Join(row: Row, parts: seq<Option<Field>>): string {
    if parts == [] then ""
    else if |parts| == 1 then PartText(row, parts[0])
    else PartText(row, parts[0]) + " " + Join(row, parts[1..])
  }

  function ReplaceAll(s: string, from: string, to: string): string {
    if s == [] || from == [] then s
    else if from <= s then to + ReplaceAll(s[|from|..], from, to)
    else [s[0]] + ReplaceAll(s[1..], from, to)
  }

  /** The value of an expression; NULL, and so is a text that is not one literal. */
  function Value(loc: Locale, row: Row, e: Expr): Option<string> {
    match e
    case Column(f) => row.value(f)
    case Text(sql) =>
      var r := Lex(sql);
      if r.Some? && r.value.rest == "" then Some(r.value.content) else None
    case Coalesce(a) => Some(OrEmpty(Value(loc, row, a)))
    case Lower(a) =>
      var v := Value(loc, row, a);
      if v.None? then None else Some(LowerAll(loc, v.value))
    case Replace(a, f, t) =>
      var v, from, to := Value(loc, row, a), Value(loc, row, f), Value(loc, row, t);
      if v.None? || from.None? || to.None? then None else Some(ReplaceAll(v.value, from.value, to.value))
    case Document(parts) => Some(Join(row, parts))
  }

  /** A condition selects the row; one that is NULL does not. */
  ghost predicate Holds(loc: Locale, row: Row, c: Cond) {
    match c
    case ContainsCall(h, n) =>
      var hay, needle := Value(loc, row, h), Value(loc, row, n);
      hay.Some? && needle.Some? && Contains(hay.value, needle.value)
    case LikeEscape(h, p, esc) =>
      var hay, pattern := Value(loc, row, h), Value(loc, row, p);
      hay.Some? && pattern.Some? && Like(hay.value, pattern.value, esc)
    case DateTest(token) => row.onDate(token)
    case FullTextMatch(q) =>
      var query := Value(loc, row, q);
      query.Some? && row.fullText(query.value)
    case Or(cs) => exists i :: 0 <= i < |cs| && Holds(loc, row, cs[i])
    case And(cs) => forall i :: 0 <= i < |cs| ==> Holds(loc, row, cs[i])
    case Never => false
  }

  // ------------------------------------------------- what the search means

  /** The text occurs in the value, as written or when both are lower case. */
  ghost predicate Hit(loc: Locale, value: Option<string>, text: string) {
    Contains(OrEmpty(value), text) || Contains(LowerAll(loc, OrEmpty(value)), LowerAll(loc, text))
  }

  ghost predicate HitsSome(loc: Locale, row: Row, fields: seq<Field>, text: string) {
    exists f :: f in fields && Hit(loc, row.value(f), text)
  }

  predicate IsSeparator(ch: char) {
    || ch == ' ' || ch == '\t' || ch == '\n' || ch == '\r' || ch == '_' || ch == '-' || ch == '.' || ch == '/'
    || ch == '\\' || ch == ':' || ch == ';' || ch == ',' || ch == '\'' || ch == '"' || ch == '(' || ch == ')'
    || ch == '[' || ch == ']' || ch == '{' || ch == '}' || ch == '%' || ch == '*' || ch == '?' || ch == '!'
    || ch == '@' || ch == '#' || ch == '$' || ch == '&' || ch == '+' || ch == '=' || ch == '|' || ch == '`'
    || ch == '~'
  }

  /** Without separators, in lower case. */
  function Stripped(loc: Locale, s: string): string {
    if s == [] then [] else (if IsSeparator(s[0]) then [] else [loc.lower(s[0])]) + Stripped(loc, s[1..])
  }

  const NAME_FIELDS: seq<Field> := [ElementName, FileName, ImagePath]
  const EXIF_FIELDS: seq<Field> := [Make, Model, Lens, LensMake, Metadata, Iso, FocalLength, Aperture]

  /** The document of the enabled fields; without a model the labels are the empty text. */
  function DocumentParts(mask: Mask, labels: Labels): seq<Option<Field>> {
    (if mask.filename then [Some(ElementName), Some(FileName), Some(ImagePath)] else [])
    + (if mask.exif then [Some(Make), Some(Model), Some(Lens), Some(LensMake), Some(DateTimeString), Some(Metadata)] else [])
    + (if mask.aiDescription then [Some(AiCaption)] else [])
    + (if mask.aiTags then [if labels.active then Some(SemanticLabels) else None, Some(AiTagsJson)] else [])
  }

  /** Wildcards and quotes turn folding off, and so does a text that is mostly separators. */
  ghost predicate Foldable(loc: Locale, text: string) {
    && (forall ch :: ch in "%*?'\"" ==> ch !in text)
    && |Stripped(loc, text)| >= 2 && |Stripped(loc, text)| >= |text| / 2
  }

  /** The characters that are no separators. */
  function Unseparated(s: string): string {
    if s == [] then [] else (if IsSeparator(s[0]) then [] else [s[0]]) + Unseparated(s[1..])
  }

  /** The text, stripped in the program, occurs in the document, put in lower case and then stripped by the database. */
  ghost predicate FoldedHit(loc: Locale, row: Row, labels: Labels, mask: Mask, text: string) {
    Foldable(loc, text) && Contains(Unseparated(LowerAll(loc, Join(row, DocumentParts(mask, labels)))), Stripped(loc, text))
  }

  /** The field belongs to a group that is searched. */
  predicate Enabled(mask: Mask, f: Field) {
    match f
    case ElementName | FileName | ImagePath => mask.filename
    case Make | Model | Lens | LensMake | DateTimeString | Metadata | Iso | FocalLength | Aperture => mask.exif
    case AiCaption => mask.aiDescription
    case AiTagsJson | SemanticLabels => mask.aiTags
  }

  /** The word occurs in an enabled field, for labels the word or an alias of it, or in the folded document. */
  ghost predicate WordHit(loc: Locale, row: Row, labels: Labels, mask: Mask, word: string) {
    || (exists f :: f != SemanticLabels && Enabled(mask, f) && Hit(loc, row.value(f), word))
    || (mask.exif && row.onDate(word))
    || (mask.aiTags && labels.active && exists term :: term in [word] + labels.aliases(word)
                                                       && Hit(loc, row.value(SemanticLabels), term))
    || FoldedHit(loc, row, labels, mask, word)
  }

  ghost predicate Matches(loc: Locale, row: Row, labels: Labels, fts: bool, mask: Mask, words: seq<string>, whole: string) {
    || (forall w :: w in words ==> WordHit(loc, row, labels, mask, w))
    || (|words| > 1 && (Hit(loc, Some(Join(row, DocumentParts(mask, labels))), whole)
                        || FoldedHit(loc, row, labels, mask, whole)))
    || (fts && mask.aiDescription && mask.aiTags && row.fullText(whole))
  }

  // ------------------------------------------------------- folding in SQL

  const SEPARATORS_0: string := " \t\n\r_-./\\:;"
  const SEPARATORS_1: string := ",'\"()[]{}%"
  const SEPARATORS_2: string := "*?!@#$&+=|`~"
  const SEPARATORS: string := SEPARATORS_0 + SEPARATORS_1 + SEPARATORS_2

  lemma Separators0(ch: char)
    ensures ch in SEPARATORS_0 <==>
            ch == ' ' || ch == '\t' || ch == '\n' || ch == '\r' || ch == '_' || ch == '-' || ch == '.' || ch == '/'
            || ch == '\\' || ch == ':' || ch == ';'
  {
    var s := SEPARATORS_0;
    assert s[0] == ' ' && s[1] == '\t' && s[2] == '\n' && s[3] == '\r' && s[4] == '_' && s[5] == '-' && s[6] == '.';
    assert s[7] == '/' && s[8] == '\\' && s[9] == ':' && s[10] == ';' && |s| == 11;
  }

  lemma Separators1(ch: char)
    ensures ch in SEPARATORS_1 <==>
            ch == ',' || ch == '\'' || ch == '"' || ch == '(' || ch == ')' || ch == '[' || ch == ']' || ch == '{'
            || ch == '}' || ch == '%'
  {
    var s := SEPARATORS_1;
    assert s[0] == ',' && s[1] == '\'' && s[2] == '"' && s[3] == '(' && s[4] == ')' && s[5] == '[' && s[6] == ']';
    assert s[7] == '{' && s[8] == '}' && s[9] == '%' && |s| == 10;
  }

  lemma Separators2(ch: char)
    ensures ch in SEPARATORS_2 <==>
            ch == '*' || ch == '?' || ch == '!' || ch == '@' || ch == '#' || ch == '$' || ch == '&' || ch == '+'
            || ch == '=' || ch == '|' || ch == '`' || ch == '~'
  {
    var s := SEPARATORS_2;
    assert s[0] == '*' && s[1] == '?' && s[2] == '!' && s[3] == '@' && s[4] == '#' && s[5] == '$' && s[6] == '&';
    assert s[7] == '+' && s[8] == '=' && s[9] == '|' && s[10] == '`' && s[11] == '~' && |s| == 12;
  }

  lemma InConcat(a: string, b: string, c: string, ch: char)
    ensures ch in a + b + c <==> ch in a || ch in b || ch in c
  {
  }

  /** The SQL list and the stripping function name the same separators. */
  lemma SameSeparators(ch: char)
    ensures ch in SEPARATORS <==> IsSeparator(ch)
  {
    InConcat(SEPARATORS_0, SEPARATORS_1, SEPARATORS_2, ch);
    Separators0(ch);
    Separators1(ch);
    Separators2(ch);
  }

  method StripSearchSeparators(loc: Locale, value: string) returns (out: string)
    ensures out == Stripped(loc, value)
  {
    out := [];
    for i := 0 to |value|
      invariant out == Stripped(loc, value[..i])
    {
      StrippedStep(loc, value, i);
      if !IsSeparator(value[i]) {
        out := out + [loc.lower(value[i])];
      }
    }
    assert value[..|value|] == value;
  }

  lemma {:induction false} StrippedConcat(loc: Locale, a: string, b: string)
    ensures Stripped(loc, a + b) == Stripped(loc, a) + Stripped(loc, b)
  {
    if a == [] {
      assert a + b == b;
    } else {
      assert (a + b)[1..] == a[1..] + b;
      StrippedConcat(loc, a[1..], b);
    }
  }

  lemma StrippedStep(loc: Locale, s: string, i: nat)
    requires i < |s|
    ensures Stripped(loc, s[..i + 1]) == Stripped(loc, s[..i]) + if IsSeparator(s[i]) then [] else [loc.lower(s[i])]
  {
    assert s[..i + 1] == s[..i] + [s[i]];
    StrippedConcat(loc, s[..i], [s[i]]);
  }

  /** The chain of REPLACE calls around an expression, one for each of the characters. */
  function FoldedExpr(e: Expr, chars: string): Expr {
    if chars == [] then Lower(Coalesce(e))
    else Replace(FoldedExpr(e, chars[..|chars| - 1]), Text(Literal([chars[|chars| - 1]])), Text("''"))
  }

  method FoldSqlSearchSeparators(e: Expr) returns (folded: Expr)
    ensures folded == FoldedExpr(e, SEPARATORS)
  {
    folded := FoldAll(e, SEPARATORS);
  }

  method FoldAll(e: Expr, separators: string) returns (folded: Expr)
    ensures folded == FoldedExpr(e, separators)
  {
    folded := Lower(Coalesce(e));
    for i := 0 to |separators|
      invariant folded == FoldedExpr(e, separators[..i])
    {
      var separator := SqlStringEscape([separators[i]]);
      folded := Replace(folded, Text("'" + separator + "'"), Text("''"));
      assert separators[..i + 1][..i] == separators[..i];
    }
    assert separators[..|separators|] == separators;
  }

  /** Without the given characters. */
  function Drop(chars: string, s: string): string {
    if s == [] then [] else (if s[0] in chars then [] else [s[0]]) + Drop(chars, s[1..])
  }

  lemma {:induction false} ReplaceDrops(s: string, ch: char)
    ensures ReplaceAll(s, [ch], "") == Drop([ch], s)
  {
    if s != [] {
      ReplaceDrops(s[1..], ch);
      assert [ch] <= s <==> s[0] == ch;
    }
  }

  lemma {:induction false} DropTwice(s: string, chars: string, ch: char)
    ensures Drop([ch], Drop(chars, s)) == Drop(chars + [ch], s)
  {
    if s != [] {
      var rest := Drop(chars, s[1..]);
      DropTwice(s[1..], chars, ch);
      assert s[0] in chars + [ch] <==> s[0] in chars || s[0] == ch;
      if s[0] !in chars {
        assert Drop(chars, s) == [s[0]] + rest && ([s[0]] + rest)[1..] == rest;
      } else {
        assert Drop(chars, s) == rest;
      }
    }
  }

  lemma {:induction false} DropNone(s: string)
    ensures Drop("", s) == s
  {
    if s != [] {
      DropNone(s[1..]);
    }
  }

  lemma ReplaceValue(loc: Locale, row: Row, e: Expr, s: string, ch: char)
    requires Value(loc, row, e) == Some(s)
    ensures Value(loc, row, Replace(e, Text(Literal([ch])), Text("''"))) == Some(Drop([ch], s))
  {
    TextValue(loc, row, [ch]);
    TextValue(loc, row, "");
    assert Literal("") == "''";
    ReplaceDrops(s, ch);
  }

  /** The chain drops its characters from the lower-case value. */
  lemma {:induction false} ChainValue(loc: Locale, row: Row, e: Expr, chars: string)
    ensures Value(loc, row, FoldedExpr(e, chars)) == Some(Drop(chars, LowerAll(loc, OrEmpty(Value(loc, row, e)))))
  {
    var s := LowerAll(loc, OrEmpty(Value(loc, row, e)));
    if chars == [] {
      DropNone(s);
    } else {
      var n := |chars| - 1;
      ChainValue(loc, row, e, chars[..n]);
      ReplaceValue(loc, row, FoldedExpr(e, chars[..n]), Drop(chars[..n], s), chars[n]);
      DropTwice(s, chars[..n], chars[n]);
      assert chars == chars[..n] + [chars[n]];
    }
  }

  lemma TextValue(loc: Locale, row: Row, s: string)
    ensures Value(loc, row, Text(Literal(s))) == Some(s)
  {
    LexLiteral(s, "");
    assert Literal(s) + "" == Literal(s);
  }

  lemma {:induction false} DropIsUnseparated(s: string)
    ensures Drop(SEPARATORS, s) == Unseparated(s)
  {
    if s != [] {
      DropIsUnseparated(s[1..]);
      SameSeparators(s[0]);
    }
  }

  /** Lower case neither makes a separator nor unmakes one. */
  ghost predicate FoldsCleanly(loc: Locale) {
    forall ch :: IsSeparator(loc.lower(ch)) <==> IsSeparator(ch)
  }

  lemma {:induction false} UnseparatedIsStripped(loc: Locale, s: string)
    requires FoldsCleanly(loc)
    ensures Unseparated(LowerAll(loc, s)) == Stripped(loc, s)
  {
    if s != [] {
      assert LowerAll(loc, s)[1..] == LowerAll(loc, s[1..]);
      UnseparatedIsStripped(loc, s[1..]);
      assert IsSeparator(loc.lower(s[0])) <==> IsSeparator(s[0]);
    }
  }

  /** The REPLACE chain folds every text as the stripping function does exactly when lower case keeps separators apart. */
  lemma ChainFoldsLikeStripping(loc: Locale)
    ensures (forall s :: Drop(SEPARATORS, LowerAll(loc, s)) == Stripped(loc, s)) <==> FoldsCleanly(loc)
  {
    if FoldsCleanly(loc) {
      forall s ensures Drop(SEPARATORS, LowerAll(loc, s)) == Stripped(loc, s) {
        DropIsUnseparated(LowerAll(loc, s));
        UnseparatedIsStripped(loc, s);
      }
    } else {
      var ch :| IsSeparator(loc.lower(ch)) != IsSeparator(ch);
      var low := LowerAll(loc, [ch]);
      assert low == [loc.lower(ch)] && low[1..] == [];
      SameSeparators(low[0]);
      assert |Drop(SEPARATORS, low)| != |Stripped(loc, [ch])|;
    }
  }

  // -------------------------------------------------------------- clauses

  function LikeClause(e: Expr, token: string): Cond {
    var value, needle := Coalesce(e), Text(Literal(token));
    Or([ContainsCall(value, needle), ContainsCall(Lower(value), Lower(needle))])
  }

  lemma OrOfTwo(loc: Locale, row: Row, a: Cond, b: Cond)
    ensures Holds(loc, row, Or([a, b])) <==> Holds(loc, row, a) || Holds(loc, row, b)
  {
    var cs := [a, b];
    assert cs[0] == a && cs[1] == b;
  }

  lemma ContainsCallMeans(loc: Locale, row: Row, hay: Expr, needle: Expr, s: string, t: string)
    requires Value(loc, row, hay) == Some(s) && Value(loc, row, needle) == Some(t)
    ensures Holds(loc, row, ContainsCall(hay, needle)) <==> Contains(s, t)
  {
  }

  lemma LikeClauseMeans(loc: Locale, row: Row, e: Expr, token: string)
    ensures Holds(loc, row, LikeClause(e, token)) <==> Hit(loc, Value(loc, row, e), token)
  {
    var value, needle := Coalesce(e), Text(Literal(token));
    var text := OrEmpty(Value(loc, row, e));
    TextValue(loc, row, token);
    ContainsCallMeans(loc, row, value, needle, text, token);
    ContainsCallMeans(loc, row, Lower(value), Lower(needle), LowerAll(loc, text), LowerAll(loc, token));
    OrOfTwo(loc, row, ContainsCall(value, needle), ContainsCall(Lower(value), Lower(needle)));
  }

  ghost predicate AnyHolds(loc: Locale, row: Row, cs: seq<Cond>) {
    exists i :: 0 <= i < |cs| && Holds(loc, row, cs[i])
  }

  lemma SomeOfOne(loc: Locale, row: Row, c: Cond)
    ensures AnyHolds(loc, row, [c]) <==> Holds(loc, row, c)
  {
    assert [c][0] == c;
  }

  lemma SomeOfBoth(loc: Locale, row: Row, a: seq<Cond>, b: seq<Cond>)
    ensures AnyHolds(loc, row, a + b) <==> AnyHolds(loc, row, a) || AnyHolds(loc, row, b)
  {
    if AnyHolds(loc, row, a) {
      var i :| 0 <= i < |a| && Holds(loc, row, a[i]);
      assert (a + b)[i] == a[i];
    }
    if AnyHolds(loc, row, b) {
      var i :| 0 <= i < |b| && Holds(loc, row, b[i]);
      assert (a + b)[|a| + i] == b[i];
    }
  }

  function FieldClauses(fields: seq<Field>, token: string): seq<Cond> {
    seq(|fields|, i requires 0 <= i < |fields| => LikeClause(Column(fields[i]), token))
  }

  lemma FieldClausesMean(loc: Locale, row: Row, fields: seq<Field>, token: string)
    ensures AnyHolds(loc, row, FieldClauses(fields, token)) <==> HitsSome(loc, row, fields, token)
  {
    var cs := FieldClauses(fields, token);
    forall i | 0 <= i < |fields| ensures Holds(loc, row, cs[i]) <==> Hit(loc, row.value(fields[i]), token) {
      LikeClauseMeans(loc, row, Column(fields[i]), token);
    }
    if HitsSome(loc, row, fields, token) {
      var f :| f in fields && Hit(loc, row.value(f), token);
      var i :| 0 <= i < |fields| && fields[i] == f;
      assert Holds(loc, row, cs[i]);
    }
  }

  /** The label column against each of the terms. */
  function TermClauses(terms: seq<string>): seq<Cond> {
    seq(|terms|, i requires 0 <= i < |terms| => LikeClause(Column(SemanticLabels), terms[i]))
  }

  lemma TermClausesMean(loc: Locale, row: Row, terms: seq<string>)
    ensures AnyHolds(loc, row, TermClauses(terms)) <==> exists term :: term in terms && Hit(loc, row.value(SemanticLabels), term)
  {
    var cs := TermClauses(terms);
    forall i | 0 <= i < |terms| ensures Holds(loc, row, cs[i]) <==> Hit(loc, row.value(SemanticLabels), terms[i]) {
      LikeClauseMeans(loc, row, Column(SemanticLabels), terms[i]);
    }
    if term :| term in terms && Hit(loc, row.value(SemanticLabels), term) {
      var i :| 0 <= i < |terms| && terms[i] == term;
      assert Holds(loc, row, cs[i]);
    }
  }

  lemma NamedFields(f: Field)
    ensures f in NAME_FIELDS <==> f.ElementName? || f.FileName? || f.ImagePath?
    ensures f in EXIF_FIELDS <==>
            f.Make? || f.Model? || f.Lens? || f.LensMake? || f.Metadata? || f.Iso? || f.FocalLength? || f.Aperture?
  {
    var s := EXIF_FIELDS;
    assert s[0] == Make && s[1] == Model && s[2] == Lens && s[3] == LensMake && s[4] == Metadata && s[5] == Iso;
    assert s[6] == FocalLength && s[7] == Aperture && |s| == 8;
    assert NAME_FIELDS[0] == ElementName && NAME_FIELDS[1] == FileName && NAME_FIELDS[2] == ImagePath && |NAME_FIELDS| == 3;
  }

  /** The lists of columns, group by group, name exactly the enabled fields. */
  lemma EnabledFieldsHit(loc: Locale, row: Row, mask: Mask, word: string)
    ensures (exists f :: f != SemanticLabels && Enabled(mask, f) && Hit(loc, row.value(f), word)) <==>
            || (mask.filename && HitsSome(loc, row, NAME_FIELDS, word))
            || (mask.exif && (HitsSome(loc, row, EXIF_FIELDS, word) || HitsSome(loc, row, [DateTimeString], word)))
            || (mask.aiDescription && HitsSome(loc, row, [AiCaption], word))
            || (mask.aiTags && HitsSome(loc, row, [AiTagsJson], word))
  {
    forall f: Field { NamedFields(f); }
    if f :| f != SemanticLabels && Enabled(mask, f) && Hit(loc, row.value(f), word) {
      assert f in NAME_FIELDS || f in EXIF_FIELDS || f in [DateTimeString] || f in [AiCaption] || f in [AiTagsJson];
    }
  }

  lemma InFour<T>(a: seq<T>, b: seq<T>, c: seq<T>, d: seq<T>, x: T)
    ensures x in a + b + c + d <==> x in a || x in b || x in c || x in d
  {
  }

  lemma ExifPart(f: Field)
    ensures Some(f) in [Some(Make), Some(Model), Some(Lens), Some(LensMake), Some(DateTimeString), Some(Metadata)] <==>
            f.Make? || f.Model? || f.Lens? || f.LensMake? || f.DateTimeString? || f.Metadata?
  {
    var s := [Some(Make), Some(Model), Some(Lens), Some(LensMake), Some(DateTimeString), Some(Metadata)];
    assert s[0] == Some(Make) && s[1] == Some(Model) && s[2] == Some(Lens) && s[3] == Some(LensMake);
    assert s[4] == Some(DateTimeString) && s[5] == Some(Metadata) && |s| == 6;
  }

  /** The document is made of the enabled fields, but for the three numbers, and the labels need a model. */
  lemma DocumentHas(mask: Mask, labels: Labels, f: Field)
    ensures Some(f) in DocumentParts(mask, labels) <==>
            Enabled(mask, f) && f != Iso && f != FocalLength && f != Aperture && (f == SemanticLabels ==> labels.active)
  {
    var names := if mask.filename then [Some(ElementName), Some(FileName), Some(ImagePath)] else [];
    var exif := if mask.exif then [Some(Make), Some(Model), Some(Lens), Some(LensMake), Some(DateTimeString), Some(Metadata)]
                else [];
    var description := if mask.aiDescription then [Some(AiCaption)] else [];
    var tags := if mask.aiTags then [if labels.active then Some(SemanticLabels) else None, Some(AiTagsJson)] else [];
    assert DocumentParts(mask, labels) == names + exif + description + tags;
    InFour(names, exif, description, tags, Some(f));
    ExifPart(f);
  }

  method FoldedDocumentClause(loc: Locale, labels: Labels, mask: Mask, token: string) returns (r: Option<Cond>)
    ensures r.Some? <==> mask != NO_FIELDS && Foldable(loc, token)
    ensures r.Some? ==> forall row :: Holds(loc, row, r.value) <==> FoldedHit(loc, row, labels, mask, token)
  {
    if mask == NO_FIELDS {
      return None;
    }
    if '%' in token || '*' in token || '?' in token || '\'' in token || '"' in token {
      return None;
    }
    var foldedToken := StripSearchSeparators(loc, token);
    if |foldedToken| < 2 || |foldedToken| < |token| / 2 {
      return None;
    }
    var document := Document(DocumentParts(mask, labels));
    var foldedDocument := FoldSqlSearchSeparators(document);
    var pattern := SqlLikeEscape(foldedToken);
    var clause := LikeEscape(foldedDocument, Text("'%" + pattern + "%'"), '~');
    forall row ensures Holds(loc, row, clause) <==> FoldedHit(loc, row, labels, mask, token) {
      FoldedClauseMeans(loc, row, document, foldedToken);
    }
    return Some(clause);
  }

  /** The folded clause holds exactly when the folded text contains the folded token. */
  lemma FoldedClauseMeans(loc: Locale, row: Row, document: Expr, foldedToken: string)
    ensures Holds(loc, row, LikeEscape(FoldedExpr(document, SEPARATORS), Text("'%" + Quoted(LikeEscaped(foldedToken)) + "%'"), '~'))
            <==> Contains(Unseparated(LowerAll(loc, OrEmpty(Value(loc, row, document)))), foldedToken)
  {
    var low := LowerAll(loc, OrEmpty(Value(loc, row, document)));
    ChainValue(loc, row, document, SEPARATORS);
    DropIsUnseparated(low);
    PatternValue(loc, row, foldedToken);
    EscapedMatchesContaining(Unseparated(low), foldedToken);
  }

  lemma PatternValue(loc: Locale, row: Row, t: string)
    ensures Value(loc, row, Text("'%" + Quoted(LikeEscaped(t)) + "%'")) == Some("%" + LikeEscaped(t) + "%")
  {
    var p := "%" + LikeEscaped(t) + "%";
    QuotedConcat("%" + LikeEscaped(t), "%");
    QuotedConcat("%", LikeEscaped(t));
    assert Quoted("%") == "%";
    TextValue(loc, row, p);
    assert Literal(p) == "'%" + Quoted(LikeEscaped(t)) + "%'";
  }

  /**
   The clauses of one word, in the order in which the program appends them.  Without fields
   there are none, and the program never asks for them.
   */
  method TokenSearchClause(loc: Locale, labels: Labels, mask: Mask, token: string) returns (r: Cond)
    ensures mask == NO_FIELDS ==> r == Or([])
    ensures forall row :: Holds(loc, row, r) <==> WordHit(loc, row, labels, mask, token)
  {
    var terms := SearchTerms(token, labels.aliases(token));
    var names := if mask.filename then FieldClauses(NAME_FIELDS, token) else [];
    var exif := if mask.exif then FieldClauses(EXIF_FIELDS, token) + [DateTest(token)] + FieldClauses([DateTimeString], token) else [];
    var description := if mask.aiDescription then FieldClauses([AiCaption], token) else [];
    var tags := if mask.aiTags then FieldClauses([AiTagsJson], token) + (if labels.active then TermClauses(terms) else []) else [];
    var folded := FoldedDocumentClause(loc, labels, mask, token);
    var last := if folded.Some? then [folded.value] else [];
    r := Or(names + exif + description + tags + last);
    forall row ensures Holds(loc, row, r) <==> WordHit(loc, row, labels, mask, token) {
      FieldClausesMean(loc, row, NAME_FIELDS, token);
      EnabledFieldsHit(loc, row, mask, token);
      ExifClausesMean(loc, row, token);
      FieldClausesMean(loc, row, [AiCaption], token);
      TagClausesMean(loc, row, labels, token, terms);
      OrOfFive(loc, row, names, exif, description, tags, last);
      if folded.Some? {
        SomeOfOne(loc, row, folded.value);
      } else {
        NothingFolded(loc, row, labels, mask, token);
      }
    }
  }

  /** Without fields the document is empty and no folded word is in it. */
  lemma NothingFolded(loc: Locale, row: Row, labels: Labels, mask: Mask, token: string)
    requires mask == NO_FIELDS || !Foldable(loc, token)
    ensures !FoldedHit(loc, row, labels, mask, token)
  {
    if mask == NO_FIELDS {
      assert DocumentParts(mask, labels) == [];
      assert Unseparated(LowerAll(loc, "")) == "";
    }
  }

  lemma OrOfFive(loc: Locale, row: Row, a: seq<Cond>, b: seq<Cond>, c: seq<Cond>, d: seq<Cond>, e: seq<Cond>)
    ensures Holds(loc, row, Or(a + b + c + d + e)) <==>
            AnyHolds(loc, row, a) || AnyHolds(loc, row, b) || AnyHolds(loc, row, c) || AnyHolds(loc, row, d) || AnyHolds(loc, row, e)
  {
    SomeOfBoth(loc, row, a, b);
    SomeOfBoth(loc, row, a + b, c);
    SomeOfBoth(loc, row, a + b + c, d);
    SomeOfBoth(loc, row, a + b + c + d, e);
  }

  lemma ExifClausesMean(loc: Locale, row: Row, token: string)
    ensures AnyHolds(loc, row, FieldClauses(EXIF_FIELDS, token) + [DateTest(token)] + FieldClauses([DateTimeString], token)) <==>
            HitsSome(loc, row, EXIF_FIELDS, token) || row.onDate(token) || HitsSome(loc, row, [DateTimeString], token)
  {
    FieldClausesMean(loc, row, EXIF_FIELDS, token);
    FieldClausesMean(loc, row, [DateTimeString], token);
    SomeOfOne(loc, row, DateTest(token));
    SomeOfBoth(loc, row, FieldClauses(EXIF_FIELDS, token), [DateTest(token)]);
    SomeOfBoth(loc, row, FieldClauses(EXIF_FIELDS, token) + [DateTest(token)], FieldClauses([DateTimeString], token));
  }

  lemma TagClausesMean(loc: Locale, row: Row, labels: Labels, token: string, terms: seq<string>)
    ensures AnyHolds(loc, row, FieldClauses([AiTagsJson], token) + (if labels.active then TermClauses(terms) else [])) <==>
            HitsSome(loc, row, [AiTagsJson], token)
            || (labels.active && exists term :: term in terms && Hit(loc, row.value(SemanticLabels), term))
  {
    FieldClausesMean(loc, row, [AiTagsJson], token);
    TermClausesMean(loc, row, terms);
    SomeOfBoth(loc, row, FieldClauses([AiTagsJson], token), if labels.active then TermClauses(terms) else []);
  }

  /** The word and its aliases, none of them twice. */
  method SearchTerms(token: string, aliases: seq<string>) returns (terms: seq<string>)
    ensures forall term :: term in terms <==> term in [token] + aliases
    ensures forall i, j :: 0 <= i < j < |terms| ==> terms[i] != terms[j]
  {
    terms := [token];
    for i := 0 to |aliases|
      invariant forall term :: term in terms <==> term == token || term in aliases[..i]
      invariant forall j, k :: 0 <= j < k < |terms| ==> terms[j] != terms[k]
    {
      if aliases[i] !in terms {
        terms := terms + [aliases[i]];
      }
    }
    assert aliases[..|aliases|] == aliases;
  }

  method SearchDocumentClause(loc: Locale, labels: Labels, mask: Mask, query: string) returns (r: Cond)
    ensures forall row :: Holds(loc, row, r) <==>
              mask != NO_FIELDS && (Hit(loc, Some(Join(row, DocumentParts(mask, labels))), query)
                                    || FoldedHit(loc, row, labels, mask, query))
  {
    if mask == NO_FIELDS {
      return Never;
    }
    var whole := LikeClause(Document(DocumentParts(mask, labels)), query);
    var folded := FoldedDocumentClause(loc, labels, mask, query);
    r := Or([whole] + if folded.Some? then [folded.value] else []);
    forall row ensures Holds(loc, row, r) <==>
        Hit(loc, Some(Join(row, DocumentParts(mask, labels))), query) || FoldedHit(loc, row, labels, mask, query)
    {
      LikeClauseMeans(loc, row, Document(DocumentParts(mask, labels)), query);
      SomeOfOne(loc, row, whole);
      if folded.Some? {
        SomeOfOne(loc, row, folded.value);
        SomeOfBoth(loc, row, [whole], [folded.value]);
      } else {
        assert [whole] + [] == [whole];
      }
    }
  }

  // ------------------------------------------------------------ the query

  function SkipSpaces(space: char -> bool, s: string): (r: string)
    ensures r == [] || !space(r[0])
    ensures |r| <= |s|
  {
    if s != [] && space(s[0]) then SkipSpaces(space, s[1..]) else s
  }

  /** The length of the run without spaces at the front. */
  function RunLength(space: char -> bool, s: string): (n: nat)
    ensures n <= |s| && (forall i :: 0 <= i < n ==> !space(s[i]))
    ensures n < |s| ==> space(s[n])
    ensures s != [] && !space(s[0]) ==> n > 0
  {
    if s == [] || space(s[0]) then 0 else 1 + RunLength(space, s[1..])
  }

  /** The maximal runs without such characters. */
  function Words(space: char -> bool, s: string): seq<string>
    decreases |s|
  {
    var t := SkipSpaces(space, s);
    if t == [] then [] else [t[..RunLength(space, t)]] + Words(space, t[RunLength(space, t)..])
  }

  method SkipWhiteSpace(space: char -> bool, s: string) returns (rest: string)
    ensures rest == SkipSpaces(space, s)
  {
    rest := s;
    while rest != [] && space(rest[0])
      invariant SkipSpaces(space, rest) == SkipSpaces(space, s)
      decreases |rest|
    {
      rest := rest[1..];
    }
  }

  method ReadWord(space: char -> bool, rest: string) returns (n: nat)
    ensures n == RunLength(space, rest)
  {
    n := 0;
    while n < |rest| && !space(rest[n])
      invariant n <= |rest| && RunLength(space, rest) == n + RunLength(space, rest[n..])
    {
      assert rest[n..][1..] == rest[n + 1..];
      n := n + 1;
    }
  }

  function SkipTrailing(loc: Locale, s: string): string {
    if s != [] && loc.space(s[|s| - 1]) then SkipTrailing(loc, s[..|s| - 1]) else s
  }

  /** The text without the spaces around it. */
  function Trimmed(loc: Locale, s: string): string {
    SkipTrailing(loc, SkipSpaces(loc.space, s))
  }

  method TrimCopy(loc: Locale, value: string) returns (r: string)
    ensures r == Trimmed(loc, value)
  {
    var first := FirstKept(loc, value);
    var last := LastKept(loc, value);
    TrimFound(loc, value, first, last);
    if first >= last {
      return [];
    }
    r := value[first..last];
  }

  method FirstKept(loc: Locale, value: string) returns (first: nat)
    ensures first <= |value| && SkipSpaces(loc.space, value[first..]) == SkipSpaces(loc.space, value)
    ensures first < |value| ==> !loc.space(value[first])
  {
    first := 0;
    while first < |value| && loc.space(value[first])
      invariant first <= |value| && SkipSpaces(loc.space, value[first..]) == SkipSpaces(loc.space, value)
    {
      assert value[first..][1..] == value[first + 1..];
      first := first + 1;
    }
  }

  method LastKept(loc: Locale, value: string) returns (last: nat)
    ensures last <= |value| && forall k :: last <= k < |value| ==> loc.space(value[k])
    ensures last > 0 ==> !loc.space(value[last - 1])
  {
    last := |value|;
    while last > 0 && loc.space(value[last - 1])
      invariant 0 <= last <= |value| && forall k :: last <= k < |value| ==> loc.space(value[k])
    {
      last := last - 1;
    }
  }

  lemma TrimFound(loc: Locale, s: string, first: nat, last: nat)
    requires first <= |s| && last <= |s| && SkipSpaces(loc.space, s[first..]) == SkipSpaces(loc.space, s)
    requires first < |s| ==> !loc.space(s[first])
    requires last > 0 ==> !loc.space(s[last - 1])
    requires forall k :: last <= k < |s| ==> loc.space(s[k])
    ensures Trimmed(loc, s) == if first >= last then [] else s[first..last]
  {
    var t := s[first..|s|];
    assert s[first..] == t;
    if first < |s| {
      assert t[0] == s[first];
      assert SkipSpaces(loc.space, t) == t;
      KeptInOrder(loc, s, first, last);
      TrailingSlice(loc, s, first, last, |s|);
    }
  }

  lemma KeptInOrder(loc: Locale, s: string, first: nat, last: nat)
    requires first < |s| && !loc.space(s[first])
    requires forall k :: last <= k < |s| ==> loc.space(s[k])
    ensures first < last
  {
  }

  lemma {:induction false} TrailingSlice(loc: Locale, s: string, first: nat, last: nat, end: nat)
    requires first < last <= end <= |s| && !loc.space(s[last - 1])
    requires forall k :: last <= k < end ==> loc.space(s[k])
    ensures SkipTrailing(loc, s[first..end]) == s[first..last]
    decreases end
  {
    if last < end {
      assert s[first..end][..end - first - 1] == s[first..end - 1];
      TrailingSlice(loc, s, first, last, end - 1);
    }
  }

  /** The stretch from i to j has no space at its ends and only spaces around it. */
  ghost predicate IsKept(loc: Locale, s: string, i: nat, j: nat) {
    && i <= j <= |s|
    && (forall k :: 0 <= k < i || j <= k < |s| ==> loc.space(s[k]))
    && (i < j ==> !loc.space(s[i]) && !loc.space(s[j - 1]))
  }

  lemma LastKeptExists(loc: Locale, s: string) returns (last: nat)
    ensures last <= |s| && forall k :: last <= k < |s| ==> loc.space(s[k])
    ensures last > 0 ==> !loc.space(s[last - 1])
  {
    last := |s|;
    while last > 0 && loc.space(s[last - 1])
      invariant 0 <= last <= |s| && forall k :: last <= k < |s| ==> loc.space(s[k])
    {
      last := last - 1;
    }
  }

  /** Trimming keeps the stretch from the first to the last character that is not a space. */
  lemma TrimmedIs(loc: Locale, s: string)
    ensures exists i: nat, j: nat :: IsKept(loc, s, i, j) && Trimmed(loc, s) == s[i..j]
  {
    var t := SkipSpaces(loc.space, s);
    var first := |s| - |t|;
    SkippedAreSpaces(loc.space, s);
    assert t == s[first..];
    assert first < |s| ==> s[first] == t[0];
    var last := LastKeptExists(loc, s);
    assert SkipSpaces(loc.space, t) == t;
    TrimFound(loc, s, first, last);
    if first < |s| {
      KeptInOrder(loc, s, first, last);
      assert IsKept(loc, s, first, last);
    } else {
      assert IsKept(loc, s, first, first) && s[first..first] == [];
    }
  }

  /** Words are not empty and have no delimiters, and all their characters are from the text. */
  lemma {:induction false} WordsAreWords(delimiter: char -> bool, s: string)
    ensures forall w :: w in Words(delimiter, s) ==> w != [] && forall i :: 0 <= i < |w| ==> !delimiter(w[i])
    ensures forall w, c :: w in Words(delimiter, s) && c in w ==> c in s
    decreases |s|
  {
    var t := SkipSpaces(delimiter, s);
    SkippedAreSpaces(delimiter, s);
    if t != [] {
      var n := RunLength(delimiter, t);
      WordsAreWords(delimiter, t[n..]);
      assert t == s[|s| - |t|..];
    }
  }

  lemma {:induction false} SkippingKeeps(space: char -> bool, s: string, c: char)
    requires c in s && !space(c)
    ensures c in SkipSpaces(space, s)
  {
    if space(s[0]) {
      SkippingKeeps(space, s[1..], c);
    }
  }

  lemma InEither(s: string, n: nat, c: char)
    requires c in s && n <= |s|
    ensures c in s[..n] || c in s[n..]
  {
    var i :| 0 <= i < |s| && s[i] == c;
    assert if i < n then s[..n][i] == c else s[n..][i - n] == c;
  }

  /** Every character that is no delimiter is in some word. */
  lemma {:induction false} WordOf(delimiter: char -> bool, s: string, c: char) returns (w: string)
    requires c in s && !delimiter(c)
    ensures w in Words(delimiter, s) && c in w
    decreases |s|
  {
    var t := SkipSpaces(delimiter, s);
    SkippingKeeps(delimiter, s, c);
    var n := RunLength(delimiter, t);
    InEither(t, n, c);
    if c in t[..n] {
      w := t[..n];
    } else {
      w := WordOf(delimiter, t[n..], c);
    }
  }

  lemma {:induction false} SkippedAreSpaces(space: char -> bool, s: string)
    ensures SkipSpaces(space, s) == s[|s| - |SkipSpaces(space, s)|..]
    ensures forall i :: 0 <= i < |s| - |SkipSpaces(space, s)| ==> space(s[i])
  {
    if s != [] && space(s[0]) {
      SkippedAreSpaces(space, s[1..]);
    }
  }

  /** A maximal stretch without delimiters. */
  ghost predicate IsRun(d: char -> bool, s: string, i: nat, j: nat) {
    && i < j <= |s| && (forall k :: i <= k < j ==> !d(s[k]))
    && (i == 0 || d(s[i - 1])) && (j == |s| || d(s[j]))
  }

  /** The first place from there on that has no delimiter. */
  ghost function NextStart(d: char -> bool, s: string, from: nat): (p: nat)
    requires from <= |s|
    ensures from <= p <= |s| && (p < |s| ==> !d(s[p])) && forall k :: from <= k < p ==> d(s[k])
    ensures SkipSpaces(d, s[from..]) == s[p..]
    decreases |s| - from
  {
    if from == |s| || !d(s[from]) then from
    else
      assert s[from..][1..] == s[from + 1..];
      NextStart(d, s, from + 1)
  }

  /** The first place from there on that has a delimiter. */
  ghost function NextEnd(d: char -> bool, s: string, from: nat): (e: nat)
    requires from <= |s|
    ensures from <= e <= |s| && (e < |s| ==> d(s[e])) && forall k :: from <= k < e ==> !d(s[k])
    ensures RunLength(d, s[from..]) == e - from
    decreases |s| - from
  {
    if from == |s| || d(s[from]) then from
    else
      assert s[from..][1..] == s[from + 1..];
      NextEnd(d, s, from + 1)
  }

  /** Where the runs lie, from a place on. */
  ghost function Runs(d: char -> bool, s: string, from: nat): seq<(nat, nat)>
    requires from <= |s|
    decreases |s| - from
  {
    var p := NextStart(d, s, from);
    if p == |s| then [] else [(p, NextEnd(d, s, p))] + Runs(d, s, NextEnd(d, s, p))
  }

  ghost predicate RunsFrom(d: char -> bool, s: string, from: nat, runs: seq<(nat, nat)>) {
    && (forall k :: 0 <= k < |runs| ==> from <= runs[k].0 && IsRun(d, s, runs[k].0, runs[k].1))
    && (forall k :: 0 < k < |runs| ==> runs[k - 1].1 < runs[k].0)
  }

  lemma OneMoreRun(d: char -> bool, s: string, from: nat, p: nat, e: nat, rest: seq<(nat, nat)>)
    requires from <= p && IsRun(d, s, p, e) && RunsFrom(d, s, e, rest) && (e < |s| ==> d(s[e]))
    ensures RunsFrom(d, s, from, [(p, e)] + rest)
  {
    var runs := [(p, e)] + rest;
    assert forall k :: 0 < k < |runs| ==> runs[k] == rest[k - 1];
    if rest != [] {
      assert IsRun(d, s, rest[0].0, rest[0].1) && !d(s[rest[0].0]);
    }
  }

  /** Each of them is a run, and each begins behind the end of the one before it. */
  lemma {:induction false} RunsAreRuns(d: char -> bool, s: string, from: nat)
    requires from <= |s| && (from == 0 || from == |s| || d(s[from]))
    ensures RunsFrom(d, s, from, Runs(d, s, from))
    decreases |s| - from
  {
    var p := NextStart(d, s, from);
    if p < |s| {
      var e := NextEnd(d, s, p);
      RunsAreRuns(d, s, e);
      OneMoreRun(d, s, from, p, e, Runs(d, s, e));
    }
  }

  /** In a stretch without delimiters only the whole of it is a run. */
  lemma OnlyRun(d: char -> bool, s: string, p: nat, e: nat, i: nat, j: nat)
    requires p <= i < e <= |s| && (forall k :: p <= k < e ==> !d(s[k])) && (e < |s| ==> d(s[e]))
    requires IsRun(d, s, i, j)
    ensures i == p && j == e
  {
  }

  /** Every run that begins there or later is among them. */
  lemma {:induction false} EveryRun(d: char -> bool, s: string, from: nat, i: nat, j: nat)
    requires from <= i && IsRun(d, s, i, j)
    ensures (i, j) in Runs(d, s, from)
    decreases |s| - from
  {
    var p := NextStart(d, s, from);
    assert !d(s[i]);
    var e := NextEnd(d, s, p);
    if i < e {
      OnlyRun(d, s, p, e, i, j);
    } else {
      EveryRun(d, s, e, i, j);
    }
  }

  ghost predicate Cut(s: string, runs: seq<(nat, nat)>, words: seq<string>) {
    && |words| == |runs|
    && forall k :: 0 <= k < |runs| ==> runs[k].0 <= runs[k].1 <= |s| && words[k] == s[runs[k].0..runs[k].1]
  }

  lemma FirstWord(d: char -> bool, s: string, from: nat)
    requires from <= |s|
    ensures var p := NextStart(d, s, from);
            Words(d, s[from..]) == if p == |s| then [] else [s[p..NextEnd(d, s, p)]] + Words(d, s[NextEnd(d, s, p)..])
  {
    var p := NextStart(d, s, from);
    if p < |s| {
      var e := NextEnd(d, s, p);
      assert s[p..][..e - p] == s[p..e] && s[p..][e - p..] == s[e..];
    }
  }

  lemma OneMoreWord(s: string, p: nat, e: nat, runs: seq<(nat, nat)>, words: seq<string>)
    requires p <= e <= |s| && Cut(s, runs, words)
    ensures Cut(s, [(p, e)] + runs, [s[p..e]] + words)
  {
  }

  lemma {:induction false} WordsAtRuns(d: char -> bool, s: string, from: nat)
    requires from <= |s|
    ensures Cut(s, Runs(d, s, from), Words(d, s[from..]))
    decreases |s| - from
  {
    FirstWord(d, s, from);
    var p := NextStart(d, s, from);
    if p < |s| {
      var e := NextEnd(d, s, p);
      WordsAtRuns(d, s, e);
      OneMoreWord(s, p, e, Runs(d, s, e), Words(d, s[e..]));
    }
  }

  /** The words are the runs, each one once and in order. */
  lemma WordsAreRuns(d: char -> bool, s: string) returns (runs: seq<(nat, nat)>)
    ensures |Words(d, s)| == |runs|
    ensures forall k :: 0 <= k < |runs| ==> IsRun(d, s, runs[k].0, runs[k].1) && Words(d, s)[k] == s[runs[k].0..runs[k].1]
    ensures forall k :: 0 < k < |runs| ==> runs[k - 1].1 < runs[k].0
    ensures forall i: nat, j: nat :: IsRun(d, s, i, j) ==> (i, j) in runs
  {
    runs := Runs(d, s, 0);
    assert s[0..] == s;
    RunsAreRuns(d, s, 0);
    WordsAtRuns(d, s, 0);
    forall i: nat, j: nat | IsRun(d, s, i, j) ensures (i, j) in runs {
      EveryRun(d, s, 0, i, j);
    }
  }

  /** A text is a word exactly if it is a run. */
  lemma WordIffRun(d: char -> bool, s: string, w: string)
    ensures w in Words(d, s) <==> exists i: nat, j: nat :: IsRun(d, s, i, j) && w == s[i..j]
  {
    var runs := WordsAreRuns(d, s);
    if w in Words(d, s) {
      var k :| 0 <= k < |runs| && Words(d, s)[k] == w;
      assert IsRun(d, s, runs[k].0, runs[k].1);
    }
    if i: nat, j: nat :| IsRun(d, s, i, j) && w == s[i..j] {
      var k :| 0 <= k < |runs| && runs[k] == (i, j);
      assert Words(d, s)[k] == w;
    }
  }

  /** Each word trimmed, without those that trimming leaves empty. */
  function TrimmedWords(loc: Locale, words: seq<string>): seq<string> {
    if words == [] then []
    else
      var w := Trimmed(loc, words[|words| - 1]);
      TrimmedWords(loc, words[..|words| - 1]) + if w == "" then [] else [w]
  }

  /** The words of a query. */
  function Tokens(loc: Locale, query: string): seq<string> {
    TrimmedWords(loc, Words(loc.delimiter, query))
  }

  /** Reads the next word, if there is one. */
  method ReadToken(delimiter: char -> bool, left: string) returns (token: Option<string>, rest: string)
    ensures token.None? ==> Words(delimiter, left) == []
    ensures token.Some? ==> Words(delimiter, left) == [token.value] + Words(delimiter, rest) && |rest| < |left|
  {
    rest := SkipWhiteSpace(delimiter, left);
    if rest == [] {
      return None, rest;
    }
    var n := ReadWord(delimiter, rest);
    return Some(rest[..n]), rest[n..];
  }

  method AddToken(loc: Locale, tokens: seq<string>, token: string, ghost words: seq<string>, ghost n: nat)
    returns (added: seq<string>)
    requires n < |words| && token == words[n] && tokens == TrimmedWords(loc, words[..n])
    ensures added == TrimmedWords(loc, words[..n + 1])
  {
    assert words[..n + 1][..n] == words[..n];
    var trimmed := TrimCopy(loc, token);
    added := if trimmed != [] then tokens + [trimmed] else tokens;
  }

  method SplitTokens(loc: Locale, query: string) returns (tokens: seq<string>)
    ensures tokens == Tokens(loc, query)
  {
    tokens := [];
    var token, rest := ReadToken(loc.delimiter, query);
    ghost var words, n := Words(loc.delimiter, query), 0;
    while token.Some?
      invariant n <= |words| && words[n..] == if token.Some? then [token.value] + Words(loc.delimiter, rest) else []
      invariant tokens == TrimmedWords(loc, words[..n])
      decreases |words| - n
    {
      assert words[n] == words[n..][0] && words[n + 1..] == words[n..][1..];
      tokens := AddToken(loc, tokens, token.value, words, n);
      token, rest := ReadToken(loc.delimiter, rest);
      n := n + 1;
    }
    assert words[..n] == words;
  }

  lemma {:induction false} TrimmedWordsAre(loc: Locale, words: seq<string>)
    ensures forall w :: w in TrimmedWords(loc, words) <==> w != "" && exists v :: v in words && w == Trimmed(loc, v)
  {
    if words != [] {
      var front, last := words[..|words| - 1], words[|words| - 1];
      TrimmedWordsAre(loc, front);
      assert words == front + [last];
    }
  }

  /** Nothing is left of a text exactly if it has only spaces. */
  lemma TrimmedIsEmpty(loc: Locale, s: string)
    ensures Trimmed(loc, s) == "" <==> forall c :: c in s ==> loc.space(c)
  {
    TrimmedIs(loc, s);
    var i: nat, j: nat :| IsKept(loc, s, i, j) && Trimmed(loc, s) == s[i..j];
    if i < j {
      assert s[i] in s;
    }
  }

  /** No word is left exactly if the query has only spaces and delimiters. */
  lemma NoTokens(loc: Locale, s: string)
    ensures Tokens(loc, s) == [] <==> forall c :: c in s ==> loc.delimiter(c) || loc.space(c)
  {
    var words := Words(loc.delimiter, s);
    WordsAreWords(loc.delimiter, s);
    TrimmedWordsAre(loc, words);
    if Tokens(loc, s) == [] {
      forall c | c in s && !loc.delimiter(c) ensures loc.space(c) {
        var w := WordOf(loc.delimiter, s, c);
        TrimmedIsEmpty(loc, w);
        assert Trimmed(loc, w) !in Tokens(loc, s);
      }
    } else {
      var w := Tokens(loc, s)[0];
      assert w in Tokens(loc, s);
      var v :| v in words && w == Trimmed(loc, v);
      TrimmedIsEmpty(loc, v);
      var c :| c in v && !loc.space(c);
      assert c in s && !loc.delimiter(c);
    }
  }

  /** Tokens are not empty, have no delimiters, and neither begin nor end with a space. */
  lemma TokensAreWords(loc: Locale, s: string)
    ensures forall w :: w in Tokens(loc, s) ==>
              && w != "" && !loc.space(w[0]) && !loc.space(w[|w| - 1])
              && forall i :: 0 <= i < |w| ==> !loc.delimiter(w[i])
  {
    WordsAreWords(loc.delimiter, s);
    TrimmedWordsAre(loc, Words(loc.delimiter, s));
    forall w | w in Tokens(loc, s)
      ensures w != "" && !loc.space(w[0]) && !loc.space(w[|w| - 1]) && forall k :: 0 <= k < |w| ==> !loc.delimiter(w[k])
    {
      var v :| v in Words(loc.delimiter, s) && w == Trimmed(loc, v);
      TrimmedIs(loc, v);
      var i: nat, j: nat :| IsKept(loc, v, i, j) && w == v[i..j];
      assert w[0] == v[i] && w[|w| - 1] == v[j - 1];
      forall k | 0 <= k < |w| ensures !loc.delimiter(w[k]) {
        assert w[k] == v[i + k];
      }
    }
  }

  /** Every word has to hit. */
  method WordsClause(loc: Locale, labels: Labels, mask: Mask, tokens: seq<string>) returns (r: Cond)
    ensures forall row :: Holds(loc, row, r) <==> forall w :: w in tokens ==> WordHit(loc, row, labels, mask, w)
  {
    var clauses: seq<Cond> := [];
    for i := 0 to |tokens|
      invariant |clauses| == i
      invariant forall row, k :: 0 <= k < i ==> (Holds(loc, row, clauses[k]) <==> WordHit(loc, row, labels, mask, tokens[k]))
    {
      var clause := TokenSearchClause(loc, labels, mask, tokens[i]);
      clauses := clauses + [clause];
    }
    r := And(clauses);
    forall row ensures Holds(loc, row, r) <==> forall w :: w in tokens ==> WordHit(loc, row, labels, mask, w) {
      AllWords(loc, row, labels, mask, tokens, clauses);
    }
  }

  lemma AllWords(loc: Locale, row: Row, labels: Labels, mask: Mask, tokens: seq<string>, clauses: seq<Cond>)
    requires |clauses| == |tokens|
    requires forall k :: 0 <= k < |tokens| ==> (Holds(loc, row, clauses[k]) <==> WordHit(loc, row, labels, mask, tokens[k]))
    ensures Holds(loc, row, And(clauses)) <==> forall w :: w in tokens ==> WordHit(loc, row, labels, mask, w)
  {
    if Holds(loc, row, And(clauses)) {
      forall w | w in tokens ensures WordHit(loc, row, labels, mask, w) {
        var k :| 0 <= k < |tokens| && tokens[k] == w;
        assert Holds(loc, row, clauses[k]);
      }
    }
  }

  /** Either of two conditions, given what each of them means. */
  method Either(loc: Locale, a: Cond, b: Cond) returns (r: Cond)
    ensures r == Or([a, b])
    ensures forall row :: Holds(loc, row, r) <==> Holds(loc, row, a) || Holds(loc, row, b)
  {
    r := Or([a, b]);
    forall row ensures Holds(loc, row, r) <==> Holds(loc, row, a) || Holds(loc, row, b) {
      OrOfTwo(loc, row, a, b);
    }
  }

  method FullTextClause(loc: Locale, query: string) returns (r: Cond)
    ensures forall row :: Holds(loc, row, r) <==> row.fullText(query)
  {
    var literal := SqlStringEscape(query);
    r := FullTextMatch(Text("'" + literal + "'"));
    forall row ensures Holds(loc, row, r) <==> row.fullText(query) {
      TextValue(loc, row, query);
    }
  }

  /**
   The search selects a row exactly when the row matches; a blank query is no filter at all,
   and with some field on neither is a query without words.
   */
  method BuildFuzzySearchWhere(loc: Locale, labels: Labels, fts: bool, query: string, mask: Mask)
    returns (where: Option<Cond>)
    ensures where.None? <==> Trimmed(loc, query) == "" || (mask != NO_FIELDS && Tokens(loc, Trimmed(loc, query)) == [])
    ensures where.Some? ==> forall row :: Holds(loc, row, where.value) <==>
              mask != NO_FIELDS
              && Matches(loc, row, labels, fts, mask, Tokens(loc, Trimmed(loc, query)), Trimmed(loc, query))
  {
    var text := TrimCopy(loc, query);
    if text == [] {
      return None;
    }
    if mask == NO_FIELDS {
      return Some(Never);
    }
    var tokens := SplitTokens(loc, text);
    if tokens == [] {
      return None;
    }
    var cond := WordsClause(loc, labels, mask, tokens);
    if |tokens| > 1 {
      var document := SearchDocumentClause(loc, labels, mask, text);
      cond := Either(loc, cond, document);
    }
    if fts && mask.aiDescription && mask.aiTags {
      var ftsClause := FullTextClause(loc, text);
      cond := Either(loc, cond, ftsClause);
    }
    return Some(cond);
  }

  /** A query that is not blank has a word, if a stream ends words at spaces only. */
  lemma BlankOnly(loc: Locale, query: string)
    requires forall c :: loc.delimiter(c) ==> loc.space(c)
    ensures Trimmed(loc, query) == "" || Tokens(loc, Trimmed(loc, query)) != []
  {
    var text := Trimmed(loc, query);
    NoTokens(loc, text);
    TrimmedIs(loc, query);
    if text != "" {
      assert text[0] in text && !loc.space(text[0]);
    }
  }
}
