/** The pieces of SQL text the list handlers of src/api/tasks.ts and
    src/api/persons.ts append to their queries: the signed `order` column,
    the WHERE conjunction, the `IN (?,…)` placeholder list and the quoted
    LIKE pattern of the free-text search. */
module SqlText {

  import opened Common
  import opened Js

  /** A value bound to a `?` placeholder. */
  datatype SqlParam = PText(text: string) | PInt(number: int)

  /** The sort a signed `order` parameter selects: column `c` ascending for
      `c`, descending for `-c`, none otherwise. Columns count from 1. */
  datatype Sort = Unsorted | Asc(column: nat) | Desc(column: nat)

  /** How the server reads the parsed `order` parameter against a table of
      `ncols` columns; NaN and every out-of-range value (0 included) select
      no sort. */
  function DecodeOrder(order: Num, ncols: nat): (s: Sort)
    ensures s.Asc? <==> order.Int? && 1 <= order.v <= ncols
    ensures s.Desc? <==> order.Int? && -(ncols as int) <= order.v <= -1
    ensures s.Asc? ==> s.column == order.v
    ensures s.Desc? ==> s.column == -order.v
    ensures !s.Unsorted? ==> 1 <= s.column <= ncols
  {
    match order
    case NaN => Unsorted
    case Int(o) =>
      if o > 0 && o <= ncols then Asc(o)
      else if o < 0 && -o <= ncols then Desc(-o)
      else Unsorted
  }

  /** The text appended to the query for a sort. */
  function OrderByClause(s: Sort): string
  {
    match s
    case Unsorted => ""
    case Asc(c) => " ORDER BY " + IntToString(c) + " ASC"
    case Desc(c) => " ORDER BY " + IntToString(c) + " DESC"
  }

  /** The ORDER BY text is empty exactly when no sort was selected, and it
      names the selected column in decimal. */
  lemma OrderByClauseShape(order: Num, ncols: nat)
    ensures OrderByClause(DecodeOrder(order, ncols)) == "" <==> DecodeOrder(order, ncols).Unsorted?
    ensures order.Int? && 1 <= order.v <= ncols ==>
              OrderByClause(DecodeOrder(order, ncols)) == " ORDER BY " + IntToString(order.v) + " ASC"
    ensures order.Int? && -(ncols as int) <= order.v <= -1 ==>
              OrderByClause(DecodeOrder(order, ncols)) == " ORDER BY " + IntToString(-order.v) + " DESC"
  {
  }

  /** `parts.join(' AND ')` after " WHERE ", or nothing when there is no part. */
  function WhereClause(parts: seq<string>): string
  {
    if |parts| > 0 then " WHERE " + Join(parts, " AND ") else ""
  }

  /** `ids.map(() => '?').join(',')`. */
  function Placeholders(n: nat): string
  {
    Join(seq(n, _ => "?"), ",")
  }

  /** The number of occurrences of `c` in `s`. */
  function Count(s: string, c: char): nat
  {
    if s == [] then 0 else (if s[0] == c then 1 else 0) + Count(s[1..], c)
  }

  lemma {:induction false} CountAppend(s: string, t: string, c: char)
    ensures Count(s + t, c) == Count(s, c) + Count(t, c)
  {
    if s != [] {
      CountAppend(s[1..], t, c);
      assert (s + t)[0] == s[0] && (s + t)[1..] == s[1..] + t;
    } else {
      assert s + t == t;
    }
  }

  /** The placeholder list holds exactly one `?` per id, and the commas cut
      it into exactly that many `?` pieces. */
  lemma {:induction false} PlaceholdersCount(n: nat)
    ensures Count(Placeholders(n), '?') == n
    ensures n > 0 ==> Split(Placeholders(n), ',') == seq(n, _ => "?")
    ensures n > 0 ==> |Placeholders(n)| == 2 * n - 1
  {
    if n > 1 {
      PlaceholdersCount(n - 1);
      var marks := seq(n, _ => "?");
      assert marks[1..] == seq(n - 1, _ => "?");
      assert Placeholders(n) == "?" + "," + Placeholders(n - 1);
      CountAppend("?" + ",", Placeholders(n - 1), '?');
    }
    if n > 0 {
      SplitJoin(seq(n, _ => "?"), ',');
    }
  }

  /** `column IN (?,…,?)` with `n` placeholders. */
  function InList(column: string, n: nat): string
  {
    column + " IN (" + Placeholders(n) + ")"
  }

  /** The total number of occurrences of `c` in the strings `parts`. */
  function CountAll(parts: seq<string>, c: char): nat
  {
    if parts == [] then 0 else Count(parts[0], c) + CountAll(parts[1..], c)
  }

  lemma {:induction false} CountNone(s: string, c: char)
    requires forall k :: 0 <= k < |s| ==> s[k] != c
    ensures Count(s, c) == 0
  {
    if s != [] {
      CountNone(s[1..], c);
    }
  }

  /** Joining adds only the separators' occurrences. */
  lemma {:induction false} CountJoin(parts: seq<string>, sep: string, c: char)
    requires Count(sep, c) == 0
    ensures Count(Join(parts, sep), c) == CountAll(parts, c)
  {
    if |parts| == 1 {
      assert CountAll(parts[1..], c) == 0;
    } else if |parts| > 1 {
      CountJoin(parts[1..], sep, c);
      CountAppend(parts[0], sep, c);
      CountAppend(parts[0] + sep, Join(parts[1..], sep), c);
    }
  }

  /** A WHERE clause holds as many placeholders as its parts. */
  lemma WhereClauseCount(parts: seq<string>)
    ensures Count(WhereClause(parts), '?') == CountAll(parts, '?')
  {
    if |parts| > 0 {
      CountNone(" WHERE ", '?');
      CountNone(" AND ", '?');
      CountJoin(parts, " AND ", '?');
      CountAppend(" WHERE ", Join(parts, " AND "), '?');
    }
  }

  /** An IN list over a column name holds exactly `n` placeholders. */
  lemma InListCount(column: string, n: nat)
    requires Count(column, '?') == 0
    ensures Count(InList(column, n), '?') == n
  {
    PlaceholdersCount(n);
    CountNone(" IN (", '?');
    CountNone(")", '?');
    CountAppend(column, " IN (", '?');
    CountAppend(column + " IN (", Placeholders(n), '?');
    CountAppend(column + " IN (" + Placeholders(n), ")", '?');
  }

  /** The ORDER BY text holds no placeholder. */
  lemma OrderByClauseCount(s: Sort)
    ensures Count(OrderByClause(s), '?') == 0
  {
    if !s.Unsorted? {
      var digits := IntToString(s.column);
      assert forall k :: 0 <= k < |digits| ==> IsDigit(digits[k]);
      CountNone(digits, '?');
      CountNone(" ORDER BY ", '?');
      CountNone(" ASC", '?');
      CountNone(" DESC", '?');
      CountAppend(" ORDER BY ", digits, '?');
      CountAppend(" ORDER BY " + digits, if s.Asc? then " ASC" else " DESC", '?');
    }
  }

  lemma AppendAssoc(a: string, b: string, c: string)
    ensures a + b + c == a + (b + c)
  {
  }

  /** The ORDER BY step of the list handlers, as they append it to the
      query: a positive `order` sorts ascending and a negative one
      descending by that column, when it names one of the `ncols` columns. */
  method AppendOrderBy(query: string, order: Num, ncols: nat) returns (sorted: string)
    ensures sorted == query + OrderByClause(DecodeOrder(order, ncols))
  {
    sorted := query;
    ghost var sort := DecodeOrder(order, ncols);
    if order.Int? && order.v > 0 && order.v <= ncols {
      sorted := sorted + " ORDER BY " + IntToString(order.v) + " ASC";
      assert sort == Asc(order.v);
      AppendAssoc(query, " ORDER BY " + IntToString(order.v), " ASC");
      AppendAssoc(query, " ORDER BY ", IntToString(order.v));
    } else if order.Int? && order.v < 0 && -order.v <= ncols {
      sorted := sorted + " ORDER BY " + IntToString(-order.v) + " DESC";
      assert sort == Desc(-order.v);
      AppendAssoc(query, " ORDER BY " + IntToString(-order.v), " DESC");
      AppendAssoc(query, " ORDER BY ", IntToString(-order.v));
    } else {
      assert sort == Unsorted;
      assert query + OrderByClause(sort) == query;
    }
  }

  // ---------------------------------------------------------------------
  // The free-text search pattern
  // ---------------------------------------------------------------------

  /** `q.replace(/'/g, "''")`: every single quote doubled. */
  function DoubleQuotes(q: string): (r: string)
    ensures |r| == |q| + Count(q, '\'')
  {
    if q == [] then ""
    else if q[0] == '\'' then "''" + DoubleQuotes(q[1..])
    else [q[0]] + DoubleQuotes(q[1..])
  }

  /** Reading `''` back as one quote: the inverse of the doubling. */
  function UndoubleQuotes(s: string): string
  {
    if |s| >= 2 && s[0] == '\'' && s[1] == '\'' then "'" + UndoubleQuotes(s[2..])
    else if s == [] then ""
    else [s[0]] + UndoubleQuotes(s[1..])
  }

  /** Quotes in the escaped text come in adjacent pairs. */
  predicate QuotesPaired(s: string)
    decreases |s|
  {
    if s == [] then true
    else if s[0] == '\'' then |s| >= 2 && s[1] == '\'' && QuotesPaired(s[2..])
    else QuotesPaired(s[1..])
  }

  /** The doubling is reversible and leaves no lone quote. (The doubled
      text is bound as a parameter, so nothing on the database side undoes
      it; see `QuotedSearchMissesItself`.) */
  lemma {:induction false} DoubleQuotesRoundTrip(q: string)
    ensures QuotesPaired(DoubleQuotes(q))
    ensures UndoubleQuotes(DoubleQuotes(q)) == q
  {
    if q != [] {
      DoubleQuotesRoundTrip(q[1..]);
      var r := DoubleQuotes(q);
      if q[0] == '\'' {
        assert r[2..] == DoubleQuotes(q[1..]);
      } else {
        assert r[1..] == DoubleQuotes(q[1..]);
      }
      assert q == [q[0]] + q[1..];
    }
  }

  /** The LIKE parameter as written: `%`, the search text with its quotes
      doubled, `%`. */
  function LikePattern(q: string): (p: string)
    ensures |p| == |q| + Count(q, '\'') + 2 && p[0] == '%' && p[|p| - 1] == '%'
    ensures QuotesPaired(p[1..|p| - 1]) && UndoubleQuotes(p[1..|p| - 1]) == q
  {
    DoubleQuotesRoundTrip(q);
    var p := "%" + DoubleQuotes(q) + "%";
    assert p[1..|p| - 1] == DoubleQuotes(q);
    p
  }

  /** `text LIKE '%' || m || '%'` for a middle `m` free of `%` and `_`,
      with case significant: `m` occurs somewhere in `text`. */
  predicate Occurs(m: string, text: string)
  {
    exists i, j :: 0 <= i <= j <= |text| && text[i..j] == m
  }

  /** As written, a search text holding a quote never finds itself: SQLite
      compares the bound pattern as it is, with its quotes still doubled,
      and the doubled middle is longer than the text. */
  lemma QuotedSearchMissesItself(q: string)
    requires Count(q, '\'') > 0
    ensures !Occurs(LikePattern(q)[1..|LikePattern(q)| - 1], q)
  {
    var m := LikePattern(q)[1..|LikePattern(q)| - 1];
    assert |m| > |q|;
    forall i, j | 0 <= i <= j <= |q| ensures q[i..j] != m {
      assert |q[i..j]| <= |q|;
    }
  }

  /** The LIKE parameter the search evidently intends: the text itself
      between the wildcards, since a bound parameter needs no quoting. The
      pattern finds the text it was built from and keeps its quotes as they
      are. */
  function SearchPattern(q: string): (p: string)
    ensures |p| == |q| + 2 && p[0] == '%' && p[|p| - 1] == '%'
    ensures Occurs(p[1..|p| - 1], q)
    ensures Count(p, '\'') == Count(q, '\'')
  {
    var p := "%" + q + "%";
    assert p[1..|p| - 1] == q[0..|q|];
    CountNone("%", '\'');
    CountAppend("%", q, '\'');
    CountAppend("%" + q, "%", '\'');
    p
  }

  /** The parameter bound to a search's LIKE placeholder: present when the
      search text `q` is truthy. This is the pattern as written,
      `LikePattern`; the intended one is `SearchPattern` (see
      `QuotedSearchMissesItself`). */
  function SearchParams(q: Option<string>): seq<SqlParam>
  {
    if q.Some? && q.value != "" then [PText(LikePattern(q.value))] else []
  }
}
