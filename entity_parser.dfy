/**
 * `parse_entities` of email_classifier.py: the line parser that turns the
 * provider's entity listing into `ExtractedEntity` values, keeping only those
 * whose confidence is at least 0.8.
 */
module EntityParser {
  import opened Wrappers
  import opened Text
  import opened Numbers

  /** The frozen `ExtractedEntity` dataclass. */
  datatype ExtractedEntity = ExtractedEntity(entity: string, entityType: string, confidence: Float)

  /** The three groups of `entity_pattern`, each up to surrounding whitespace. */
  datatype EntityMatch = EntityMatch(entity: string, entityType: string, confidence: string)

  /** The `Type` and `Confidence Score` groups. */
  datatype Fields = Fields(entityType: string, confidence: string)

  /** Entities below this confidence are dropped. */
  const MinConfidence: real := 0.8

  /** `re.sub(r"\*\*", "", s)`: drops "**" pairs, scanning left to right without overlap. */
  function RemoveBold(s: string): (r: string)
    ensures |r| <= |s|
    decreases |s|
  {
    if |s| >= 2 && s[0] == '*' && s[1] == '*' then RemoveBold(s[2..])
    else if s == [] then []
    else [s[0]] + RemoveBold(s[1..])
  }

  /** Text without asterisks is left alone by `RemoveBold`. */
  lemma {:induction false} RemoveBoldNoStars(s: string)
    requires '*' !in s
    ensures RemoveBold(s) == s
    decreases |s|
  {
    if s != [] {
      assert s[0] != '*';
      assert '*' !in s[1..];
      RemoveBoldNoStars(s[1..]);
    }
  }

  /** No "**" survives: each pair met is dropped, and a kept '*' is never followed by another. */
  predicate NoBoldMarker(x: string) {
    forall k :: 0 <= k < |x| - 1 ==> !(x[k] == '*' && x[k + 1] == '*')
  }

  /** A text that does not start with '*' keeps its first character. */
  lemma RemoveBoldHead(t: string)
    requires t != [] && t[0] != '*'
    ensures RemoveBold(t) != [] && RemoveBold(t)[0] == t[0]
  {
  }

  lemma {:induction false} RemoveBoldNoPairs(s: string)
    ensures NoBoldMarker(RemoveBold(s))
    decreases |s|
  {
    if |s| >= 2 && s[0] == '*' && s[1] == '*' {
      RemoveBoldNoPairs(s[2..]);
    } else if s != [] {
      var rest := RemoveBold(s[1..]);
      RemoveBoldNoPairs(s[1..]);
      if s[0] == '*' && rest != [] {
        RemoveBoldHead(s[1..]);
      }
      var r := [s[0]] + rest;
      forall k | 0 <= k < |r| - 1
        ensures !(r[k] == '*' && r[k + 1] == '*')
      {
        if k > 0 {
          assert r[k] == rest[k - 1] && r[k + 1] == rest[k];
        }
      }
    }
  }

  /** Case-insensitive occurrence at `i` of the lower-case literal `lit`. */
  predicate LiteralAt(s: string, i: nat, lit: string) {
    i + |lit| <= |s| && ToLower(s[i..i + |lit|]) == lit
  }

  /** The end of the run of whitespace starting at `i` (a greedy `\s*`). */
  function SkipSpaces(s: string, i: nat): (j: nat)
    requires i <= |s|
    ensures i <= j <= |s| && (j == |s| || !IsSpace(s[j]))
    ensures forall k :: i <= k < j ==> IsSpace(s[k])
    decreases |s| - i
  {
    if i < |s| && IsSpace(s[i]) then SkipSpaces(s, i + 1) else i
  }

  /** The first comma at or after `i`, or `|s|`. */
  function CommaFrom(s: string, i: nat): (j: nat)
    requires i <= |s|
    ensures i <= j <= |s| && (j == |s| || s[j] == ',')
    ensures forall k :: i <= k < j ==> s[k] != ','
    decreases |s| - i
  {
    if i == |s| || s[i] == ',' then i else CommaFrom(s, i + 1)
  }

  /** `CommaFrom` finds the first comma. */
  lemma CommaFromIs(s: string, i: nat, j: nat)
    requires i <= j < |s| && s[j] == ','
    requires forall k :: i <= k < j ==> s[k] != ','
    ensures CommaFrom(s, i) == j
  {
  }

  /** The end of the run of `[\d.]` starting at `i` (a greedy `[\d.]+` once non-empty). */
  function DecimalRunEnd(s: string, i: nat): (j: nat)
    requires i <= |s|
    ensures i <= j <= |s| && (j == |s| || !(IsDigit(s[j]) || s[j] == '.'))
    ensures forall k :: i <= k < j ==> IsDigit(s[k]) || s[k] == '.'
    decreases |s| - i
  {
    if i < |s| && (IsDigit(s[i]) || s[i] == '.') then DecimalRunEnd(s, i + 1) else i
  }

  /**
   * The rest of `entity_pattern` after the entity group ends at `e`:
   * `\s*,\s*Type:\s*([^,]+?)\s*,\s*Confidence Score:\s*([\d.]+)`.
   * Every part is forced: the comma must follow whitespace only, the lazy
   * type group stops at the first comma after "Type:", and the confidence
   * group takes the whole run of digits and dots.
   */
  function FieldsAfter(s: string, e: nat): Option<Fields>
    requires e <= |s|
  {
    var c1 := SkipSpaces(s, e);
    if c1 == |s| || s[c1] != ',' then None else TypeField(s, SkipSpaces(s, c1 + 1))
  }

  /**
   * `Type:\s*([^,]+?)\s*,` from `t0` on, then the confidence field. The type
   * group is kept with the whitespace around it, which `label.strip()`
   * removes anyway.
   */
  function TypeField(s: string, t0: nat): Option<Fields>
    requires t0 <= |s|
  {
    if !LiteralAt(s, t0, "type:") then None
    else
      var u := t0 + 5;
      var c2 := CommaFrom(s, u);
      if c2 == |s| || c2 == u then None
      else ConfidenceField(s, SkipSpaces(s, c2 + 1), s[u..c2])
  }

  /** `Confidence Score:\s*([\d.]+)` from `v` on. */
  function ConfidenceField(s: string, v: nat, entityType: string): Option<Fields>
    requires v <= |s|
  {
    if !LiteralAt(s, v, "confidence score:") then None
    else
      var w := SkipSpaces(s, v + 17);
      var w2 := DecimalRunEnd(s, w);
      if w2 == w then None else Some(Fields(entityType, s[w..w2]))
  }

  /** No two commas in a row: every comma is followed by a non-comma piece. */
  predicate NoEmptyPiece(x: string) {
    forall k :: 0 <= k < |x| - 1 ==> !(x[k] == ',' && x[k + 1] == ',')
  }

  /**
   * The entity group `[^,]+(?:,[^,]+)*` can end at `e`. It starts at `a0`,
   * the first non-space after "Entity:", unless a comma stands there; then
   * the regex backs `\s*` off by one and the group starts with that space
   * (which needs at least one space before `a0`).
   */
  predicate EntityEndOk(s: string, q: nat, a0: nat, e: nat)
    requires q <= a0 <= e <= |s|
  {
    if a0 < |s| && s[a0] != ',' then
      a0 < e && s[e - 1] != ',' && NoEmptyPiece(s[a0..e])
    else
      a0 < |s| && q < a0 && (e == a0 || (s[e - 1] != ',' && NoEmptyPiece(s[a0..e])))
  }

  /**
   * A greedy group tries its ends from the longest down: the first end `ok`
   * accepts and after which `fields` match wins.
   */
  function LongestEnd<F>(fields: nat -> Option<F>, ok: nat -> bool, a0: nat, e: nat): (r: Option<(nat, F)>)
    requires a0 <= e
    ensures r.Some? ==> a0 <= r.value.0 <= e && ok(r.value.0) && fields(r.value.0) == Some(r.value.1)
    decreases e - a0
  {
    if fields(e).Some? && ok(e) then Some((e, fields(e).value))
    else if e == a0 then None
    else LongestEnd(fields, ok, a0, e - 1)
  }

  /** Ends that fail are passed over: the search lands on the first end below them that succeeds. */
  lemma {:induction false} LongestEndSkips<F>(fields: nat -> Option<F>, ok: nat -> bool, a0: nat, x: nat, e: nat)
    requires a0 <= x <= e
    requires forall y: nat :: x < y <= e ==> fields(y) == None
    ensures LongestEnd(fields, ok, a0, e) == LongestEnd(fields, ok, a0, x)
    decreases e - x
  {
    if e > x {
      assert fields(e) == None;
      LongestEndSkips(fields, ok, a0, x, e - 1);
    }
  }

  /**
   * The end `LongestEnd` returns is the largest acceptable one, and it finds
   * none exactly when no end from `a0` to `e` is acceptable.
   */
  lemma {:induction false} LongestEndIsLargest<F>(fields: nat -> Option<F>, ok: nat -> bool, a0: nat, e: nat)
    requires a0 <= e
    ensures var r := LongestEnd(fields, ok, a0, e);
      r.Some? ==> forall y: nat :: r.value.0 < y <= e ==> !(fields(y).Some? && ok(y))
    ensures LongestEnd(fields, ok, a0, e).None? <==> forall y: nat :: a0 <= y <= e ==> !(fields(y).Some? && ok(y))
    decreases e - a0
  {
    if !(fields(e).Some? && ok(e)) && e > a0 {
      LongestEndIsLargest(fields, ok, a0, e - 1);
    }
  }

  /** The remaining fields after each end of the entity group. */
  function FieldsFrom(s: string): nat -> Option<Fields> {
    (y: nat) => if y <= |s| then FieldsAfter(s, y) else None
  }

  /** The ends the entity group can take. */
  function EndsOk(s: string, q: nat, a0: nat): nat -> bool {
    (y: nat) => q <= a0 <= y <= |s| && EntityEndOk(s, q, a0, y)
  }

  /** The match of `entity_pattern` starting at `p`, if any. */
  function MatchAt(s: string, p: nat): Option<EntityMatch>
    requires p <= |s|
  {
    if !LiteralAt(s, p, "entity:") then None
    else
      var q := p + 7;
      var a0 := SkipSpaces(s, q);
      match LongestEnd(FieldsFrom(s), EndsOk(s, q, a0), a0, |s|)
      case None => None
      case Some(found) => Some(EntityMatch(s[q..found.0], found.1.entityType, found.1.confidence))
  }

  /** `entity_pattern.search(s)` from position `p` on: the leftmost match wins. */
  function SearchFrom(s: string, p: nat): Option<EntityMatch>
    requires p <= |s|
    decreases |s| - p
  {
    match MatchAt(s, p)
    case Some(m) => Some(m)
    case None => if p == |s| then None else SearchFrom(s, p + 1)
  }

  function Search(s: string): Option<EntityMatch> {
    SearchFrom(s, 0)
  }

  /** What the type and confidence groups can hold: a non-empty type without commas, a run of digits and dots. */
  predicate FieldsShape(f: Fields) {
    f.entityType != [] && ',' !in f.entityType && IsDecimalRun(f.confidence)
  }

  /** The confidence field follows "Confidence Score:" and its group is a run of digits and dots. */
  lemma ConfidenceFieldShape(s: string, v: nat, entityType: string)
    requires v <= |s|
    ensures var r := ConfidenceField(s, v, entityType);
      r.Some? ==> LiteralAt(s, v, "confidence score:") && r.value.entityType == entityType && IsDecimalRun(r.value.confidence)
  {
    if LiteralAt(s, v, "confidence score:") {
      var w := SkipSpaces(s, v + 17);
      var w2 := DecimalRunEnd(s, w);
      forall k | 0 <= k < |s[w..w2]|
        ensures IsDigit(s[w..w2][k]) || s[w..w2][k] == '.'
      {
        assert s[w..w2][k] == s[w + k];
      }
    }
  }

  /** The type field follows "Type:", its group is non-empty and holds no comma. */
  lemma TypeFieldShape(s: string, t0: nat)
    requires t0 <= |s|
    ensures var r := TypeField(s, t0);
      r.Some? ==> LiteralAt(s, t0, "type:") && FieldsShape(r.value)
  {
    if LiteralAt(s, t0, "type:") {
      var u := t0 + 5;
      var c2 := CommaFrom(s, u);
      if c2 < |s| && c2 != u {
        assert forall k :: 0 <= k < |s[u..c2]| ==> s[u..c2][k] == s[u + k];
        ConfidenceFieldShape(s, SkipSpaces(s, c2 + 1), s[u..c2]);
      }
    }
  }

  /** After the entity group come only spaces and then a comma, and the groups are well shaped. */
  lemma FieldsAfterShape(s: string, e: nat)
    requires e <= |s|
    ensures var r := FieldsAfter(s, e); var c1 := SkipSpaces(s, e);
      r.Some? ==> c1 < |s| && s[c1] == ',' && FieldsShape(r.value)
  {
    var c1 := SkipSpaces(s, e);
    if c1 < |s| && s[c1] == ',' {
      TypeFieldShape(s, SkipSpaces(s, c1 + 1));
    }
  }

  /** An acceptable end of the entity group leaves it non-empty and never ending in a comma. */
  lemma EntityEndOkShape(s: string, q: nat, a0: nat, e: nat)
    requires q <= a0 <= e <= |s| && a0 == SkipSpaces(s, q)
    requires EntityEndOk(s, q, a0, e)
    ensures q < e && s[e - 1] != ','
  {
    if e == a0 {
      assert IsSpace(s[a0 - 1]);
    }
  }

  /** The end the greedy search settles on is acceptable and the fields behind it match. */
  lemma FoundFacts(s: string, q: nat, a0: nat, found: (nat, Fields))
    requires q <= a0 <= |s|
    requires LongestEnd(FieldsFrom(s), EndsOk(s, q, a0), a0, |s|) == Some(found)
    ensures a0 <= found.0 <= |s| && EntityEndOk(s, q, a0, found.0) && FieldsAfter(s, found.0) == Some(found.1)
  {
    assert EndsOk(s, q, a0)(found.0);
    assert FieldsFrom(s)(found.0) == Some(found.1);
  }

  /** An acceptable end with fields behind it leaves well-shaped groups. */
  lemma EndAndFieldsShape(s: string, q: nat, a0: nat, e: nat, f: Fields)
    requires q <= a0 <= e <= |s| && a0 == SkipSpaces(s, q)
    requires EntityEndOk(s, q, a0, e) && FieldsAfter(s, e) == Some(f)
    ensures q < e && s[e - 1] != ',' && FieldsShape(f)
  {
    FieldsAfterShape(s, e);
    EntityEndOkShape(s, q, a0, e);
  }

  /** The end and fields the greedy search settles on are well shaped. */
  lemma FoundShape(s: string, q: nat, a0: nat, found: (nat, Fields))
    requires q <= a0 <= |s| && a0 == SkipSpaces(s, q)
    requires LongestEnd(FieldsFrom(s), EndsOk(s, q, a0), a0, |s|) == Some(found)
    ensures q < found.0 <= |s| && s[found.0 - 1] != ',' && FieldsShape(found.1)
  {
    FoundFacts(s, q, a0, found);
    EndAndFieldsShape(s, q, a0, found.0, found.1);
  }

  /**
   * A match at `p`: "Entity:" in any letter case stands at `p`; the entity
   * group runs from just after it, is non-empty and does not end in a comma;
   * the type and confidence groups are well shaped.
   */
  predicate MatchShape(s: string, p: nat, m: EntityMatch) {
    LiteralAt(s, p, "entity:") && m.entity != [] && m.entity[|m.entity| - 1] != ',' &&
    m.entity <= s[p + 7..] && FieldsShape(Fields(m.entityType, m.confidence))
  }

  lemma MatchShapeOfGroups(s: string, p: nat, e: nat, f: Fields)
    requires LiteralAt(s, p, "entity:") && p + 7 < e <= |s| && s[e - 1] != ',' && FieldsShape(f)
    ensures MatchShape(s, p, EntityMatch(s[p + 7..e], f.entityType, f.confidence))
  {
    assert s[p + 7..e] == s[p + 7..][..e - (p + 7)];
  }

  /** A match at `p` is cut out at the end and with the fields the greedy search settles on. */
  lemma MatchAtParts(s: string, p: nat) returns (e: nat, f: Fields)
    requires p <= |s| && MatchAt(s, p).Some?
    ensures LiteralAt(s, p, "entity:") && p + 7 < e <= |s| && s[e - 1] != ',' && FieldsShape(f)
    ensures MatchAt(s, p) == Some(EntityMatch(s[p + 7..e], f.entityType, f.confidence))
  {
    var q := p + 7;
    var a0 := SkipSpaces(s, q);
    var found := LongestEnd(FieldsFrom(s), EndsOk(s, q, a0), a0, |s|).value;
    FoundShape(s, q, a0, found);
    MatchAtFound(s, p, a0, found);
    e, f := found.0, found.1;
  }

  lemma MatchAtShape(s: string, p: nat)
    requires p <= |s|
    ensures MatchAt(s, p).Some? ==> MatchShape(s, p, MatchAt(s, p).value)
  {
    if MatchAt(s, p).Some? {
      var e, f := MatchAtParts(s, p);
      MatchShapeOfGroups(s, p, e, f);
    }
  }

  /** The first position from `p` up to `n` at which `f` finds something. */
  function FirstFrom<T>(f: nat -> Option<T>, p: nat, n: nat): Option<T>
    requires p <= n
    decreases n - p
  {
    match f(p)
    case Some(m) => Some(m)
    case None => if p == n then None else FirstFrom(f, p + 1, n)
  }

  lemma {:induction false} FirstFromNone<T>(f: nat -> Option<T>, p: nat, n: nat)
    requires p <= n
    ensures FirstFrom(f, p, n).None? <==> forall q: nat :: p <= q <= n ==> f(q).None?
    decreases n - p
  {
    if f(p).None? && p < n {
      FirstFromNone(f, p + 1, n);
    }
  }

  lemma {:induction false} FirstFromLeftmost<T>(f: nat -> Option<T>, p: nat, n: nat)
    requires p <= n
    ensures FirstFrom(f, p, n).Some? ==>
      exists q: nat :: p <= q <= n && f(q) == FirstFrom(f, p, n) && forall y: nat :: p <= y < q ==> f(y).None?
    decreases n - p
  {
    if f(p).None? && p < n {
      FirstFromLeftmost(f, p + 1, n);
      if FirstFrom(f, p + 1, n).Some? {
        var q: nat :| p + 1 <= q <= n && f(q) == FirstFrom(f, p + 1, n) && forall y: nat :: p + 1 <= y < q ==> f(y).None?;
        assert forall y: nat :: p <= y < q ==> f(y).None?;
      }
    }
  }

  /** The match of the pattern at each position of `s`. */
  function Matches(s: string): nat -> Option<EntityMatch> {
    (q: nat) => if q <= |s| then MatchAt(s, q) else None
  }

  /** `SearchFrom` is the scan for the first position with a match. */
  lemma {:induction false} SearchFromFirst(s: string, p: nat)
    requires p <= |s|
    ensures SearchFrom(s, p) == FirstFrom(Matches(s), p, |s|)
    decreases |s| - p
  {
    assert Matches(s)(p) == MatchAt(s, p);
    if MatchAt(s, p).None? && p < |s| {
      SearchFromFirst(s, p + 1);
    }
  }

  /** `search` finds nothing from `p` on exactly when the pattern matches at no position from `p` on. */
  lemma SearchFromNone(s: string, p: nat)
    requires p <= |s|
    ensures SearchFrom(s, p).None? <==> forall q: nat :: p <= q <= |s| ==> MatchAt(s, q).None?
  {
    SearchFromFirst(s, p);
    FirstFromNone(Matches(s), p, |s|);
    assert forall q: nat :: p <= q <= |s| ==> Matches(s)(q) == MatchAt(s, q);
  }

  /** A match `search` reports is the one at the leftmost position where the pattern matches. */
  lemma SearchFromLeftmost(s: string, p: nat)
    requires p <= |s|
    ensures SearchFrom(s, p).Some? ==>
      exists q: nat :: p <= q <= |s| && MatchAt(s, q) == SearchFrom(s, p) && forall y: nat :: p <= y < q ==> MatchAt(s, y).None?
  {
    SearchFromFirst(s, p);
    FirstFromLeftmost(Matches(s), p, |s|);
    assert forall q: nat :: p <= q <= |s| ==> Matches(s)(q) == MatchAt(s, q);
  }

  /** `re.sub(r"\*\*", "", line).strip()`. */
  function CleanLine(raw: string): string {
    Strip(RemoveBold(raw))
  }

  /** Dropping the first or the last character keeps a text free of "**". */
  lemma NoBoldMarkerEnds(x: string)
    requires x != [] && NoBoldMarker(x)
    ensures NoBoldMarker(x[1..]) && NoBoldMarker(x[..|x| - 1])
  {
    assert forall k :: 0 <= k < |x| - 1 ==> x[1..][k] == x[k + 1];
  }

  lemma {:induction false} TrimLeftNoBoldMarker(x: string)
    requires NoBoldMarker(x)
    ensures NoBoldMarker(TrimLeft(x))
    decreases |x|
  {
    if x != [] && IsSpace(x[0]) {
      NoBoldMarkerEnds(x);
      TrimLeftNoBoldMarker(x[1..]);
    }
  }

  lemma {:induction false} TrimRightNoBoldMarker(x: string)
    requires NoBoldMarker(x)
    ensures NoBoldMarker(TrimRight(x))
    decreases |x|
  {
    if x != [] && IsSpace(x[|x| - 1]) {
      NoBoldMarkerEnds(x);
      TrimRightNoBoldMarker(x[..|x| - 1]);
    }
  }

  /** A cleaned line has no surrounding whitespace and no "**" left in it. */
  lemma CleanLineShape(raw: string)
    ensures IsStripped(CleanLine(raw)) && NoBoldMarker(CleanLine(raw))
  {
    var b := RemoveBold(raw);
    RemoveBoldNoPairs(raw);
    StripIsTrims(b);
    TrimLeftNoBoldMarker(b);
    TrimRightNoBoldMarker(TrimLeft(b));
  }

  /** A cleaned line the parser passes over without trying the pattern. */
  predicate IsSkipped(line: string) {
    line == []
    || Contains(ToLower(line), "extraction of financial entities")
    || Contains(ToLower(line), "note")
  }

  /** The skip test ignores letter case: a line and its lower-cased form are skipped alike. */
  lemma SkipTestIgnoresCase(line: string)
    ensures IsSkipped(line) <==> IsSkipped(ToLower(line))
  {
    assert ToLower(ToLower(line)) == ToLower(line);
  }

  /**
   * What a match adds to `entities`: nothing when `float` rejects the
   * confidence text or the confidence is below 0.8, otherwise the stripped
   * entity and type with that confidence.
   */
  function EntityOfMatch(m: EntityMatch): (r: seq<ExtractedEntity>)
    ensures |r| <= 1
    ensures forall k :: 0 <= k < |r| ==>
      Kept(r[k])
  {
    match ParseFloat(m.confidence)
    case None => []
    case Some(c) =>
      if AtLeast(c, MinConfidence) then [ExtractedEntity(Strip(m.entity), Strip(m.entityType), c)] else []
  }

  /**
   * A match adds an entity exactly when `float` accepts its confidence text
   * and the value is at least 0.8; the entity is then the stripped entity and
   * type groups with that value.
   */
  lemma EntityOfMatchIff(m: EntityMatch)
    ensures EntityOfMatch(m) != [] <==>
      ParseFloat(m.confidence).Some? && AtLeast(ParseFloat(m.confidence).value, MinConfidence)
    ensures EntityOfMatch(m) != [] ==>
      EntityOfMatch(m)[0] == ExtractedEntity(Strip(m.entity), Strip(m.entityType), ParseFloat(m.confidence).value)
  {
  }

  /** What one line of the response adds to `entities`: nothing when it is skipped or does not match. */
  function LineEntities(raw: string): (r: seq<ExtractedEntity>)
    ensures |r| <= 1
    ensures forall k :: 0 <= k < |r| ==>
      Kept(r[k])
  {
    var line := CleanLine(raw);
    if IsSkipped(line) then []
    else
      match Search(line)
      case None => []
      case Some(m) => EntityOfMatch(m)
  }

  /** `f` of every line, concatenated in line order. */
  function Collect<T>(lines: seq<string>, f: string -> seq<T>): seq<T>
    decreases |lines|
  {
    if lines == [] then []
    else Collect(lines[..|lines| - 1], f) + f(lines[|lines| - 1])
  }

  /** One more line adds what `f` makes of it at the end. */
  lemma CollectSnoc<T>(lines: seq<string>, i: nat, f: string -> seq<T>)
    requires i < |lines|
    ensures Collect(lines[..i + 1], f) == Collect(lines[..i], f) + f(lines[i])
  {
    assert lines[..i + 1][..i] == lines[..i];
  }

  /** Consecutive blocks of lines give consecutive blocks of results. */
  lemma {:induction false} CollectAppend<T>(a: seq<string>, b: seq<string>, f: string -> seq<T>)
    ensures Collect(a + b, f) == Collect(a, f) + Collect(b, f)
    decreases |b|
  {
    if b == [] {
      assert a + b == a;
    } else {
      var b' := b[..|b| - 1];
      assert (a + b)[..|a + b| - 1] == a + b';
      assert (a + b)[|a + b| - 1] == b[|b| - 1];
      CollectAppend(a, b', f);
    }
  }

  /** An entity `parse_entities` keeps: confident enough, with stripped entity and type. */
  predicate Kept(e: ExtractedEntity) {
    AtLeast(e.confidence, MinConfidence) && IsStripped(e.entity) && IsStripped(e.entityType)
  }

  /** At most one entity per line, every one of them kept. */
  lemma {:induction false} CollectedEntitiesKept(lines: seq<string>)
    ensures var r := Collect(lines, LineEntities);
      |r| <= |lines| && forall k :: 0 <= k < |r| ==> Kept(r[k])
    decreases |lines|
  {
    if lines != [] {
      CollectedEntitiesKept(lines[..|lines| - 1]);
      var last := LineEntities(lines[|lines| - 1]);
      assert forall k :: 0 <= k < |last| ==> Kept(last[k]);
    }
  }

  /** What `parse_entities` collects over `lines`, in line order. */
  function EntitiesOf(lines: seq<string>): (r: seq<ExtractedEntity>)
    ensures |r| <= |lines|
    ensures forall k :: 0 <= k < |r| ==> Kept(r[k])
  {
    CollectedEntitiesKept(lines);
    Collect(lines, LineEntities)
  }

  /** One more line adds that line's entity, if any, at the end. */
  lemma EntitiesOfSnoc(lines: seq<string>, i: nat)
    requires i < |lines|
    ensures EntitiesOf(lines[..i + 1]) == EntitiesOf(lines[..i]) + LineEntities(lines[i])
  {
    CollectSnoc(lines, i, LineEntities);
  }

  /** The entities of consecutive blocks of lines follow each other: line order is kept. */
  lemma EntitiesOfAppend(a: seq<string>, b: seq<string>)
    ensures EntitiesOf(a + b) == EntitiesOf(a) + EntitiesOf(b)
  {
    CollectAppend(a, b, LineEntities);
  }

  /** A line that yields nothing (bad confidence, no match, skipped) does not stop the lines after it. */
  lemma {:induction false} LineWithoutEntity(before: seq<string>, line: string, after: seq<string>)
    requires LineEntities(line) == []
    ensures EntitiesOf(before + [line] + after) == EntitiesOf(before) + EntitiesOf(after)
  {
    var head := before + [line];
    assert EntitiesOf(head) == EntitiesOf(before) by {
      EntitiesOfSnoc(head, |before|);
      assert head[..|before| + 1] == head && head[..|before|] == before;
      assert head[|before|] == line;
      var none := LineEntities(line);
      assert EntitiesOf(before) + none == EntitiesOf(before);
    }
    EntitiesOfAppend(head, after);
  }

  /**
   * `parse_entities`: walks the response line by line and appends the
   * entity of every line that yields one.
   */
  method ParseEntities(responseText: string) returns (entities: seq<ExtractedEntity>)
    ensures responseText == [] ==> entities == []
    ensures entities == EntitiesOf(SplitLines(responseText))
    ensures forall k :: 0 <= k < |entities| ==>
      Kept(entities[k])
  {
    entities := [];
    if responseText == [] {
      return;
    }
    var lines := SplitLines(responseText);
    for i := 0 to |lines|
      invariant entities == EntitiesOf(lines[..i])
    {
      EntitiesOfSnoc(lines, i);
      entities := entities + LineEntities(lines[i]);
    }
    assert lines[..|lines|] == lines;
  }

  /** A line in the shape the entity prompt asks for. */
  function FormatLine(entity: string, entityType: string, confidence: string): string {
    "Entity: " + entity + ", Type: " + entityType + ", Confidence Score: " + confidence
  }

  /** An entity text the pattern's entity group can take whole: comma-separated non-empty pieces. */
  predicate WellFormedEntity(e: string) {
    e != [] && IsStripped(e) && e[0] != ',' && e[|e| - 1] != ',' && NoEmptyPiece(e)
  }

  predicate WellFormedType(t: string) {
    IsStripped(t) && ',' !in t
  }

  predicate IsDecimalRun(c: string) {
    c != [] && forall k :: 0 <= k < |c| ==> IsDigit(c[k]) || c[k] == '.'
  }

  /** Where the entity part of a formatted line sits. */
  lemma EntityPartLayout(e: string, t: string, c: string)
    ensures var s := FormatLine(e, t, c);
      |s| == 36 + |e| + |t| + |c| && s[..7] == "Entity:" && s[7] == ' ' && s[8..8 + |e|] == e
  {
    var s := FormatLine(e, t, c);
    var p1 := "Entity: " + e;
    assert s[..|p1|] == p1;
    assert p1[..7] == "Entity:";
  }

  /** Where the type part of a formatted line sits. */
  lemma TypePartLayout(e: string, t: string, c: string)
    ensures var s := FormatLine(e, t, c);
      var ee := 8 + |e|;
      |s| == 36 + |e| + |t| + |c|
      && s[ee] == ',' && s[ee + 1] == ' ' && s[ee + 2..ee + 7] == "Type:" && s[ee + 7] == ' '
      && s[ee + 8..ee + 8 + |t|] == t && s[ee + 7..ee + 8 + |t|] == " " + t
  {
    var s := FormatLine(e, t, c);
    var ee := 8 + |e|;
    var p1 := "Entity: " + e;
    var p3 := p1 + ", Type: " + t;
    assert s[..|p3|] == p3;
    assert p3[ee..ee + 8] == ", Type: ";
    assert s[ee..ee + 8] == ", Type: ";
    TypeLiteral(s, ee);
    assert p3[ee + 8..] == t;
    assert p3[ee + 7..] == " " + t;
  }

  /** The characters of ", Type: " written at `ee`. */
  lemma TypeLiteral(s: string, ee: nat)
    requires ee + 8 <= |s| && s[ee..ee + 8] == ", Type: "
    ensures s[ee] == ',' && s[ee + 1] == ' ' && s[ee + 2..ee + 7] == "Type:" && s[ee + 7] == ' '
  {
    var lit := s[ee..ee + 8];
    assert lit[2..7] == "Type:";
    forall k | 0 <= k < 5
      ensures s[ee + 2..ee + 7][k] == lit[2..7][k]
    {
      assert s[ee + 2 + k] == lit[k + 2];
    }
    assert s[ee] == lit[0] && s[ee + 1] == lit[1] && s[ee + 7] == lit[7];
  }

  /** Where the confidence part of a formatted line sits. */
  lemma ConfidencePartLayout(e: string, t: string, c: string)
    ensures var s := FormatLine(e, t, c);
      var c2 := 16 + |e| + |t|;
      |s| == c2 + 20 + |c|
      && s[c2] == ',' && s[c2 + 1] == ' ' && s[c2 + 2..c2 + 19] == "Confidence Score:" && s[c2 + 19] == ' '
      && s[c2 + 20..] == c
  {
    var s := FormatLine(e, t, c);
    var c2 := 16 + |e| + |t|;
    var p3 := "Entity: " + e + ", Type: " + t;
    var lit := ", Confidence Score: ";
    assert s == p3 + lit + c;
    assert |p3| == c2;
    MiddlePiece(p3, lit, c);
    ConfidenceLiteral(s, c2);
  }

  /** The middle and the last of three concatenated pieces, recovered by slicing. */
  lemma MiddlePiece<T>(x: seq<T>, y: seq<T>, z: seq<T>)
    ensures (x + y + z)[|x|..|x| + |y|] == y && (x + y + z)[|x| + |y|..] == z
  {
    var s := x + y + z;
    assert forall k :: 0 <= k < |y| ==> s[|x| + k] == y[k];
    assert forall k :: 0 <= k < |z| ==> s[|x| + |y| + k] == z[k];
  }

  /** The characters of ", Confidence Score: " written at `c2`. */
  lemma ConfidenceLiteral(s: string, c2: nat)
    requires c2 + 20 <= |s| && s[c2..c2 + 20] == ", Confidence Score: "
    ensures s[c2] == ',' && s[c2 + 1] == ' ' && s[c2 + 2..c2 + 19] == "Confidence Score:" && s[c2 + 19] == ' '
  {
    var lit := s[c2..c2 + 20];
    assert lit[2..19] == "Confidence Score:";
    forall k | 0 <= k < 17
      ensures s[c2 + 2..c2 + 19][k] == lit[2..19][k]
    {
      assert s[c2 + 2 + k] == lit[k + 2];
    }
    assert s[c2] == lit[0] && s[c2 + 1] == lit[1] && s[c2 + 19] == lit[19];
  }

  /** "Entity: " + e opens `s`. */
  predicate EntityPartAt(s: string, e: string) {
    8 + |e| <= |s| && s[..7] == "Entity:" && s[7] == ' ' && s[8..8 + |e|] == e
  }

  /** ", Type: " + t stands in `s` at `ee`. */
  predicate TypePartAt(s: string, ee: nat, t: string) {
    ee + 8 + |t| <= |s|
    && s[ee] == ',' && s[ee + 1] == ' ' && s[ee + 2..ee + 7] == "Type:" && s[ee + 7..ee + 8 + |t|] == " " + t
  }

  /** ", Confidence Score: " + c closes `s` from `c2` on. */
  predicate ConfidencePartAt(s: string, c2: nat, c: string) {
    c2 + 20 + |c| == |s|
    && s[c2] == ',' && s[c2 + 1] == ' ' && s[c2 + 2..c2 + 19] == "Confidence Score:" && s[c2 + 19] == ' '
    && s[c2 + 20..] == c
  }

  /**
   * `s` is laid out as "Entity: " + e + ", Type: " + t + ", Confidence Score: " + c,
   * spelled out position by position so that proofs about `s` need not
   * unfold the concatenation.
   */
  predicate HasLayout(s: string, e: string, t: string, c: string) {
    EntityPartAt(s, e) && TypePartAt(s, 8 + |e|, t) && ConfidencePartAt(s, 16 + |e| + |t|, c)
  }

  lemma FormatLineLayout(e: string, t: string, c: string)
    ensures HasLayout(FormatLine(e, t, c), e, t, c)
  {
    EntityPartLayout(e, t, c);
    TypePartLayout(e, t, c);
    ConfidencePartLayout(e, t, c);
  }

  /** After the entity part the only commas are the two that open the type and confidence parts. */
  lemma LaidOutCommas(s: string, e: string, t: string, c: string, k: nat)
    requires HasLayout(s, e, t, c) && WellFormedType(t) && IsDecimalRun(c)
    requires 8 + |e| < k < |s| && k != 16 + |e| + |t|
    ensures s[k] != ','
  {
    var ee := 8 + |e|;
    var c2 := ee + 8 + |t|;
    if k < ee + 7 {
      if ee + 2 <= k {
        assert s[k] == s[ee + 2..ee + 7][k - ee - 2];
      }
    } else if k < c2 {
      assert s[k] == s[ee + 7..c2][k - ee - 7];
      assert s[k] in " " + t;
    } else if k < c2 + 20 {
      if c2 + 2 <= k < c2 + 19 {
        assert s[k] == s[c2 + 2..c2 + 19][k - c2 - 2];
      }
    } else {
      assert s[k] == s[c2 + 20..][k - c2 - 20];
    }
  }

  /** Where the confidence part of a line ending in ", Confidence Score: " + c puts the scanner. */
  lemma ConfidenceFacts(s: string, c2: nat, c: string)
    requires ConfidencePartAt(s, c2, c) && IsDecimalRun(c)
    ensures LiteralAt(s, c2 + 2, "confidence score:") && SkipSpaces(s, c2 + 19) == c2 + 20
    ensures c2 + 20 < |s| && DecimalRunEnd(s, c2 + 20) == |s| && s[c2 + 20..|s|] == c
  {
    assert ToLower("Confidence Score:") == "confidence score:";
    assert s[c2 + 20] == s[c2 + 20..][0] == c[0];
    forall k | c2 + 20 <= k < |s|
      ensures IsDigit(s[k]) || s[k] == '.'
    {
      assert s[k] == s[c2 + 20..][k - c2 - 20];
    }
    assert s[c2 + 20..|s|] == s[c2 + 20..];
  }

  /** Where the type part of a line puts the scanner: "type:" at `ee + 2`, its group up to the comma at `c2`. */
  lemma TypeFacts(s: string, ee: nat, c2: nat, t: string, c: string)
    requires c2 == ee + 8 + |t| && TypePartAt(s, ee, t) && ConfidencePartAt(s, c2, c) && WellFormedType(t)
    ensures SkipSpaces(s, ee) == ee && s[ee] == ',' && SkipSpaces(s, ee + 1) == ee + 2
    ensures LiteralAt(s, ee + 2, "type:")
    ensures CommaFrom(s, ee + 7) == c2 && s[ee + 7..c2] == " " + t && SkipSpaces(s, c2 + 1) == c2 + 2
  {
    var u := ee + 7;
    assert ToLower("Type:") == "type:";
    assert s[ee + 2] == s[ee + 2..ee + 7][0];
    forall k | u <= k < c2
      ensures s[k] != ','
    {
      assert s[k] == s[u..c2][k - u];
    }
    CommaFromIs(s, u, c2);
    assert s[c2 + 2] == s[c2 + 2..c2 + 19][0];
  }

  /** "confidence score:" at `c2 + 2`, then the decimal run `c` from `c2 + 20` to the end of the line. */
  lemma ConfidenceFound(s: string, c2: nat, g: string, c: string)
    requires c2 + 20 < |s| && LiteralAt(s, c2 + 2, "confidence score:") && SkipSpaces(s, c2 + 19) == c2 + 20
    requires DecimalRunEnd(s, c2 + 20) == |s| && s[c2 + 20..|s|] == c
    ensures ConfidenceField(s, c2 + 2, g) == Some(Fields(g, c))
  {
  }

  /** "type:" at `ee + 2`, the type group `g` up to the comma at `c2`, then the confidence field `f`. */
  lemma TypeFound(s: string, ee: nat, c2: nat, g: string, f: Fields)
    requires ee + 7 < c2 < |s| && LiteralAt(s, ee + 2, "type:") && CommaFrom(s, ee + 7) == c2
    requires s[ee + 7..c2] == g && SkipSpaces(s, c2 + 1) == c2 + 2 && ConfidenceField(s, c2 + 2, g) == Some(f)
    ensures TypeField(s, ee + 2) == Some(f)
  {
  }

  /** A comma at `ee`, then the type field `f` after the spaces behind it. */
  lemma FieldsFound(s: string, ee: nat, f: Fields)
    requires ee < |s| && SkipSpaces(s, ee) == ee && s[ee] == ',' && SkipSpaces(s, ee + 1) == ee + 2
    requires TypeField(s, ee + 2) == Some(f)
    ensures FieldsAfter(s, ee) == Some(f)
  {
  }

  /** After the entity part of a laid-out line, the type and confidence fields match. */
  lemma LaidOutFieldsAtEntityEnd(s: string, e: string, t: string, c: string)
    requires HasLayout(s, e, t, c) && WellFormedType(t) && IsDecimalRun(c)
    ensures FieldsAfter(s, 8 + |e|) == Some(Fields(" " + t, c))
  {
    var ee := 8 + |e|;
    var c2 := 16 + |e| + |t|;
    TypeFacts(s, ee, c2, t, c);
    ConfidenceFacts(s, c2, c);
    ConfidenceFound(s, c2, " " + t, c);
    TypeFound(s, ee, c2, " " + t, Fields(" " + t, c));
    FieldsFound(s, ee, Fields(" " + t, c));
  }

  /** No end beyond the entity part leaves a line the remaining fields can match. */
  lemma LaidOutNoFieldsBeyond(s: string, e: string, t: string, c: string, x: nat)
    requires HasLayout(s, e, t, c) && WellFormedType(t) && IsDecimalRun(c)
    requires 8 + |e| < x <= |s|
    ensures FieldsAfter(s, x) == None
  {
    var c2 := 16 + |e| + |t|;
    forall k | x <= k < |s| && k != c2
      ensures s[k] != ','
    {
      LaidOutCommas(s, e, t, c, k);
    }
    NotTypeAfterLastComma(s, c2, c);
    NoFieldsWithoutComma(s, x, c2);
  }

  /** From `x` on the only comma is at `c2` and no type field follows it: the fields cannot match. */
  lemma NoFieldsWithoutComma(s: string, x: nat, c2: nat)
    requires x <= |s| && c2 < |s|
    requires forall k :: x <= k < |s| && k != c2 ==> s[k] != ','
    requires TypeField(s, SkipSpaces(s, c2 + 1)) == None
    ensures FieldsAfter(s, x) == None
  {
  }

  /** Behind the comma before "Confidence Score" no "Type:" field starts. */
  lemma NotTypeAfterLastComma(s: string, c2: nat, c: string)
    requires ConfidencePartAt(s, c2, c)
    ensures TypeField(s, SkipSpaces(s, c2 + 1)) == None
  {
    assert s[c2 + 2] == s[c2 + 2..c2 + 19][0];
    assert SkipSpaces(s, c2 + 1) == c2 + 2;
    assert ToLower(s[c2 + 2..c2 + 7])[0] == 'c';
  }

  /** The pattern finds the three fields of a laid-out line. */
  lemma LaidOutMatches(s: string, e: string, t: string, c: string)
    requires HasLayout(s, e, t, c) && WellFormedEntity(e) && WellFormedType(t) && IsDecimalRun(c)
    ensures Search(s) == Some(EntityMatch(" " + e, " " + t, c))
  {
    EntityPartStarts(s, e);
    LaidOutEntityEnd(s, e, t, c);
    EntityGroup(s, e);
    MatchAtStart(s, " " + e, Fields(" " + t, c));
  }

  /**
   * A line opening with "Entity:" and one space, whose entity group ends
   * after `g` with `f` behind it, matches at its start with `g` as the group.
   */
  lemma MatchAtStart(s: string, g: string, f: Fields)
    requires LiteralAt(s, 0, "entity:") && SkipSpaces(s, 7) == 8 && 7 + |g| <= |s| && s[7..7 + |g|] == g
    requires LongestEnd(FieldsFrom(s), EndsOk(s, 7, 8), 8, |s|) == Some((7 + |g|, f))
    ensures MatchAt(s, 0) == Some(EntityMatch(g, f.entityType, f.confidence))
  {
    MatchAtFound(s, 0, 8, (7 + |g|, f));
  }

  /** Once the entity group's end and the fields behind it are known, so is the match. */
  lemma MatchAtFound(s: string, p: nat, a0: nat, found: (nat, Fields))
    requires p + 7 <= a0 <= |s| && LiteralAt(s, p, "entity:") && SkipSpaces(s, p + 7) == a0
    requires LongestEnd(FieldsFrom(s), EndsOk(s, p + 7, a0), a0, |s|) == Some(found)
    ensures p + 7 <= found.0 <= |s|
    ensures MatchAt(s, p) == Some(EntityMatch(s[p + 7..found.0], found.1.entityType, found.1.confidence))
  {
  }

  /** The group the pattern captures for the entity: the space after "Entity:" and `e`. */
  lemma EntityGroup(s: string, e: string)
    requires EntityPartAt(s, e)
    ensures s[7..8 + |e|] == " " + e
  {
    assert s[8..8 + |e|] == e;
  }

  /** The greedy entity group of a laid-out line ends where the entity does. */
  lemma LaidOutEntityEnd(s: string, e: string, t: string, c: string)
    requires HasLayout(s, e, t, c) && WellFormedEntity(e) && WellFormedType(t) && IsDecimalRun(c)
    ensures LongestEnd(FieldsFrom(s), EndsOk(s, 7, 8), 8, |s|) == Some((8 + |e|, Fields(" " + t, c)))
  {
    var ee := 8 + |e|;
    var fields := FieldsFrom(s);
    var ok := EndsOk(s, 7, 8);
    EntityPartStarts(s, e);
    LaidOutFieldsAtEntityEnd(s, e, t, c);
    assert fields(ee) == Some(Fields(" " + t, c)) && ok(ee);
    forall y: nat | ee < y <= |s|
      ensures fields(y) == None
    {
      LaidOutNoFieldsBeyond(s, e, t, c, y);
    }
    LongestEndSkips(fields, ok, 8, ee, |s|);
  }

  /** "Entity:" opens the line, the group starts at `e`, and it may end where `e` does. */
  lemma EntityPartStarts(s: string, e: string)
    requires EntityPartAt(s, e) && WellFormedEntity(e)
    ensures LiteralAt(s, 0, "entity:") && SkipSpaces(s, 7) == 8 && EntityEndOk(s, 7, 8, 8 + |e|)
  {
    var ee := 8 + |e|;
    assert ToLower("Entity:") == "entity:";
    assert s[0..7] == s[..7];
    assert s[8] == s[8..ee][0] == e[0];
    assert s[ee - 1] == s[8..ee][|e| - 1];
  }

  /**
   * A line written as "Entity: E, Type: T, Confidence Score: C" is matched
   * with E, T and C as its groups, up to the space before E and T, even when
   * E itself contains commas.
   */
  lemma FormatLineMatches(e: string, t: string, c: string)
    requires WellFormedEntity(e) && WellFormedType(t) && IsDecimalRun(c)
    ensures Search(FormatLine(e, t, c)) == Some(EntityMatch(" " + e, " " + t, c))
  {
    FormatLineLayout(e, t, c);
    LaidOutMatches(FormatLine(e, t, c), e, t, c);
  }

  /** A formatted line holds no asterisk and no surrounding whitespace, so cleaning leaves it alone. */
  lemma CleanFormatLine(e: string, t: string, c: string)
    requires WellFormedEntity(e) && IsDecimalRun(c) && '*' !in e && '*' !in t
    ensures CleanLine(FormatLine(e, t, c)) == FormatLine(e, t, c)
  {
    var s := FormatLine(e, t, c);
    FormatLineNoStars(e, t, c);
    RemoveBoldNoStars(s);
    FormatLineStripped(e, t, c);
    StripStripped(s);
  }

  /** A formatted line has an asterisk only where its entity or type does. */
  lemma FormatLineNoStars(e: string, t: string, c: string)
    requires IsDecimalRun(c) && '*' !in e && '*' !in t
    ensures '*' !in FormatLine(e, t, c)
  {
    assert forall k :: 0 <= k < |c| ==> c[k] != '*';
  }

  /** A formatted line opens with "E" and closes with the confidence's last character. */
  lemma FormatLineStripped(e: string, t: string, c: string)
    requires IsDecimalRun(c)
    ensures IsStripped(FormatLine(e, t, c))
  {
    var s := FormatLine(e, t, c);
    EntityPartLayout(e, t, c);
    ConfidencePartLayout(e, t, c);
    assert s[0] == s[..7][0];
    assert s[|s| - 1] == s[16 + |e| + |t| + 20..][|c| - 1];
  }

  /**
   * A formatted line yields its entity exactly when its confidence text
   * parses as a float of at least 0.8; entity and type come back as written.
   */
  lemma FormattedLineEntity(e: string, t: string, c: string)
    requires WellFormedEntity(e) && WellFormedType(t) && IsDecimalRun(c)
    requires '*' !in e && '*' !in t
    requires !IsSkipped(FormatLine(e, t, c))
    ensures LineEntities(FormatLine(e, t, c)) ==
      match ParseFloat(c)
      case Some(f) => if AtLeast(f, MinConfidence) then [ExtractedEntity(e, t, f)] else []
      case None => []
  {
    FormattedLineGroups(e, t, c);
    PaddedGroups(e, t, c);
  }

  /** A formatted line contributes what its groups do. */
  lemma FormattedLineGroups(e: string, t: string, c: string)
    requires WellFormedEntity(e) && WellFormedType(t) && IsDecimalRun(c)
    requires '*' !in e && '*' !in t
    requires !IsSkipped(FormatLine(e, t, c))
    ensures LineEntities(FormatLine(e, t, c)) == EntityOfMatch(EntityMatch(" " + e, " " + t, c))
  {
    CleanFormatLine(e, t, c);
    FormatLineMatches(e, t, c);
  }

  /** The space the groups carry in front of entity and type is stripped off. */
  lemma PaddedGroups(e: string, t: string, c: string)
    requires IsStripped(e) && IsStripped(t)
    ensures EntityOfMatch(EntityMatch(" " + e, " " + t, c)) ==
      match ParseFloat(c)
      case Some(f) => if AtLeast(f, MinConfidence) then [ExtractedEntity(e, t, f)] else []
      case None => []
  {
    StripPadded(" ", e, "");
    StripPadded(" ", t, "");
    assert " " + e + "" == " " + e && " " + t + "" == " " + t;
  }

  /**
   * With a confidence written as digits, a dot and digits, the entity is
   * kept exactly when that decimal number is at least 0.8.
   */
  lemma FormattedDecimalEntity(e: string, t: string, whole: string, frac: string)
    requires WellFormedEntity(e) && WellFormedType(t) && '*' !in e && '*' !in t
    requires whole != [] && AllDigits(whole) && AllDigits(frac)
    requires !IsSkipped(FormatLine(e, t, whole + "." + frac))
    ensures var v := DecimalValue(whole, frac);
      LineEntities(FormatLine(e, t, whole + "." + frac))
      == if v >= MinConfidence then [ExtractedEntity(e, t, Finite(v))] else []
  {
    var c := whole + "." + frac;
    forall k | 0 <= k < |c|
      ensures IsDigit(c[k]) || c[k] == '.'
    {
      if k < |whole| {
        assert c[k] == whole[k];
      } else if k > |whole| {
        assert c[k] == frac[k - |whole| - 1];
      }
    }
    ParseDecimalText(whole, frac);
    FormattedLineEntity(e, t, c);
  }

  /**
   * Any line whose text mentions "note" in any letter case is dropped, even
   * when the word is part of the entity itself ("Promissory Note").
   */
  lemma NoteInEntityDropsLine(e: string, t: string, c: string)
    requires WellFormedEntity(e) && IsDecimalRun(c) && '*' !in e && '*' !in t
    requires Contains(ToLower(e), "note")
    ensures LineEntities(FormatLine(e, t, c)) == []
  {
    CleanFormatLine(e, t, c);
    NoteInFormatLine(e, t, c);
    SkippedLineDropped(FormatLine(e, t, c));
  }

  /** "note" in the entity is "note" in the whole line. */
  lemma NoteInFormatLine(e: string, t: string, c: string)
    requires Contains(ToLower(e), "note")
    ensures Contains(ToLower(FormatLine(e, t, c)), "note")
  {
    var tail := ", Type: " + t + ", Confidence Score: " + c;
    assert FormatLine(e, t, c) == "Entity: " + e + tail;
    ToLowerAppend("Entity: " + e, tail);
    ToLowerAppend("Entity: ", e);
    ContainsAfter(ToLower("Entity: "), ToLower(e), "note");
    ContainsBefore(ToLower("Entity: " + e), ToLower(tail), "note");
  }

  /** A line the parser passes over yields nothing. */
  lemma SkippedLineDropped(raw: string)
    requires IsSkipped(CleanLine(raw))
    ensures LineEntities(raw) == []
  {
  }
}
