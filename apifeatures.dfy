/** The query-string helpers getAllUsers and getAllPosts use to build their
    SELECT: a column list from `fields`, an ORDER BY from `sort`, a
    LIMIT/OFFSET from `page` and `limit`, and a parameterised WHERE from
    every other key.

    `req.query` is modelled as its flat list of (key, value) string pairs in
    enumeration order, each key once. */
module ApiFeatures {
  import opened Basics

  type Query = seq<(string, string)>

  predicate KeysDistinct(q: Query)
  {
    forall i, j :: 0 <= i < j < |q| ==> q[i].0 != q[j].0
  }

  /** `queryString[key]`: the value of the first pair with that key. */
  function Get(q: Query, key: string): (r: Option<string>)
    ensures r.Some? <==> exists i :: 0 <= i < |q| && q[i].0 == key
    ensures r.Some? ==> exists i :: 0 <= i < |q| && q[i] == (key, r.value)
    decreases |q|
  {
    if |q| == 0 then None
    else if q[0].0 == key then Some(q[0].1)
    else
      var r := Get(q[1..], key);
      assert forall i :: 0 < i < |q| ==> q[i] == q[1..][i - 1];
      assert forall i :: 0 <= i < |q| - 1 ==> q[1..][i] == q[i + 1];
      r
  }

  /** `if (queryString[key])`: the value when it is present and not empty. */
  function Truthy(q: Query, key: string): Option<string>
  {
    match Get(q, key)
    case Some(v) => if v != "" then Some(v) else None
    case None => None
  }

  // ---------------------------------------------------------------- fields

  /** The SELECT column list: `*` without a `fields` parameter, otherwise the
      parameter with a space put after every comma. */
  function ApplyFieldLimiting(q: Query): (cols: string)
    ensures Truthy(q, "fields").None? ==> cols == "*"
    ensures Truthy(q, "fields").Some? ==> cols == ReplaceChar(Truthy(q, "fields").value, ',', ", ")
  {
    match Truthy(q, "fields")
    case Some(f) =>
      JoinSplitReplaces(f, ',', ", ");
      Join(Split(f, ','), ", ")
    case None => "*"
  }

  // ---------------------------------------------------------------- sort

  datatype Direction = Asc | Desc

  /** What a `sort` field asks for: a leading `-` means descending. */
  function SortKey(field: string): (string, Direction)
  {
    if StartsWith(field, "-") then (field[1..], Desc) else (field, Asc)
  }

  /** The orderings the `sort` parameter asks for, one per comma-separated field. */
  function SortKeys(fields: seq<string>): (keys: seq<(string, Direction)>)
    ensures |keys| == |fields|
    ensures forall i {:trigger keys[i]} :: 0 <= i < |fields| ==> keys[i] == SortKey(fields[i])
  {
    seq(|fields|, i requires 0 <= i < |fields| => SortKey(fields[i]))
  }

  function SortTerm(field: string): string
  {
    if StartsWith(field, "-") then field[1..] + " DESC" else field + " ASC"
  }

  function SortTerms(fields: seq<string>): (terms: seq<string>)
    ensures |terms| == |fields|
    ensures forall i {:trigger terms[i]} :: 0 <= i < |fields| ==> terms[i] == SortTerm(fields[i])
  {
    seq(|fields|, i requires 0 <= i < |fields| => SortTerm(fields[i]))
  }

  /** The ORDER BY clause: empty without a `sort` parameter. */
  function ApplySorting(q: Query): (clause: string)
    ensures Truthy(q, "sort").None? <==> clause == ""
    ensures Truthy(q, "sort").Some? ==> StartsWith(clause, "ORDER BY ")
  {
    match Truthy(q, "sort")
    case Some(s) => "ORDER BY " + Join(SortTerms(Split(s, ',')), ", ")
    case None => ""
  }

  /** Reads one ORDER BY term back: a column followed by ` ASC` or ` DESC`. */
  function ReadTerm(t: string): Option<(string, Direction)>
  {
    if EndsWith(t, " DESC") then Some((t[..|t| - 5], Desc))
    else if EndsWith(t, " ASC") then Some((t[..|t| - 4], Asc))
    else None
  }

  /** Reads the terms that follow the first one, each after `, `. */
  function ReadMoreTerms(parts: seq<string>): Option<seq<(string, Direction)>>
    decreases |parts|
  {
    if |parts| == 0 then Some([])
    else if !StartsWith(parts[0], " ") then None
    else
      match (ReadTerm(parts[0][1..]), ReadMoreTerms(parts[1..]))
      case (Some(k), Some(ks)) => Some([k] + ks)
      case _ => None
  }

  /** An independent reader for the clause ApplySorting builds. */
  function ReadOrderBy(clause: string): Option<seq<(string, Direction)>>
  {
    if !StartsWith(clause, "ORDER BY ") then None
    else
      var parts := Split(clause[9..], ',');
      match (ReadTerm(parts[0]), ReadMoreTerms(parts[1..]))
      case (Some(k), Some(ks)) => Some([k] + ks)
      case _ => None
  }

  lemma ReadSortTerm(field: string)
    ensures ReadTerm(SortTerm(field)) == Some(SortKey(field))
  {
    var t := SortTerm(field);
    if StartsWith(field, "-") {
      assert t[|t| - 5..] == " DESC";
      assert t[..|t| - 5] == field[1..];
    } else {
      assert t[|t| - 4..] == " ASC";
      assert t[|t| - 4..|t| - 3] == " ";
      assert t[|t| - 4] == ' ' && " DESC"[1] == 'D';
      assert t[..|t| - 4] == field;
    }
  }

  /** Each term behind the space that follows its comma. */
  function Spaced(terms: seq<string>): (r: seq<string>)
    ensures |r| == |terms|
    decreases |terms|
  {
    if |terms| == 0 then [] else [" " + terms[0]] + Spaced(terms[1..])
  }

  /** Splitting the `, `-joined terms at the commas gives the first term and
      then each following term behind its space. */
  lemma {:induction false} SplitJoinedTerms(terms: seq<string>)
    requires |terms| >= 1
    requires forall i :: 0 <= i < |terms| ==> ',' !in terms[i]
    ensures Split(Join(terms, ", "), ',') == [terms[0]] + Spaced(terms[1..])
    decreases |terms|
  {
    if |terms| == 1 {
      SplitWithoutSeparator(terms[0], ',');
      assert terms[1..] == [];
    } else {
      var rest := terms[1..];
      forall i | 0 <= i < |rest|
        ensures ',' !in rest[i]
      {
        assert rest[i] == terms[i + 1];
      }
      SplitJoinedTerms(rest);
      var j := Join(rest, ", ");
      assert Join(terms, ", ") == terms[0] + [','] + (" " + j);
      SplitAtFirst(terms[0], ',', " " + j);
      var ps := Split(j, ',');
      assert Split(" " + j, ',') == [" " + ps[0]] + ps[1..] by {
        assert (" " + j)[1..] == j;
      }
      assert ps[0] == rest[0] && ps[1..] == Spaced(rest[1..]);
      assert Spaced(rest) == [" " + rest[0]] + Spaced(rest[1..]);
    }
  }

  lemma {:induction false} ReadMoreSortTerms(fields: seq<string>)
    ensures ReadMoreTerms(Spaced(SortTerms(fields))) == Some(SortKeys(fields))
    decreases |fields|
  {
    if |fields| > 0 {
      SortListsCons(fields);
      var rest := Spaced(SortTerms(fields[1..]));
      assert Spaced(SortTerms(fields)) == [" " + SortTerm(fields[0])] + rest;
      ReadMoreSortTerms(fields[1..]);
      ReadSpacedTerm(fields[0], rest);
    }
  }

  /** The term and key lists of a non-empty field list, head first. */
  lemma SortListsCons(fields: seq<string>)
    requires |fields| > 0
    ensures SortTerms(fields) == [SortTerm(fields[0])] + SortTerms(fields[1..])
    ensures SortKeys(fields) == [SortKey(fields[0])] + SortKeys(fields[1..])
  {
    assert SortTerms(fields)[1..] == SortTerms(fields[1..]);
    assert SortKeys(fields)[1..] == SortKeys(fields[1..]);
  }

  /** One spaced term read off the front of the list. */
  lemma ReadSpacedTerm(field: string, rest: seq<string>)
    ensures ReadMoreTerms([" " + SortTerm(field)] + rest) ==
      match ReadMoreTerms(rest)
      case Some(ks) => Some([SortKey(field)] + ks)
      case None => None
  {
    var ps := [" " + SortTerm(field)] + rest;
    assert ps[0][..1] == " " && ps[0][1..] == SortTerm(field);
    assert ps[1..] == rest;
    ReadSortTerm(field);
  }

  /** Reading the ORDER BY clause back yields, for every comma-separated
      field of `sort` in order, its column and its direction. */
  lemma SortingRoundTrip(q: Query)
    requires Truthy(q, "sort").Some?
    ensures ReadOrderBy(ApplySorting(q)) == Some(SortKeys(Split(Truthy(q, "sort").value, ',')))
  {
    ReadSortClause(Truthy(q, "sort").value);
  }

  lemma ReadSortClause(sort: string)
    ensures ReadOrderBy("ORDER BY " + Join(SortTerms(Split(sort, ',')), ", ")) ==
            Some(SortKeys(Split(sort, ',')))
  {
    var fields := Split(sort, ',');
    ReadOrderByBody(Join(SortTerms(fields), ", "));
    ReadJoinedTerms(fields);
  }

  /** Past its keyword, the clause is read as a first term and the rest. */
  lemma ReadOrderByBody(body: string)
    ensures var parts := Split(body, ',');
      ReadOrderBy("ORDER BY " + body) ==
        match (ReadTerm(parts[0]), ReadMoreTerms(parts[1..]))
        case (Some(k), Some(ks)) => Some([k] + ks)
        case _ => None
  {
    var clause := "ORDER BY " + body;
    assert StartsWith(clause, "ORDER BY ") && clause[9..] == body;
  }

  /** The terms of a joined ORDER BY list read back one by one. */
  lemma ReadJoinedTerms(fields: seq<string>)
    requires |fields| >= 1
    requires forall i :: 0 <= i < |fields| ==> ',' !in fields[i]
    ensures var parts := Split(Join(SortTerms(fields), ", "), ',');
      (match (ReadTerm(parts[0]), ReadMoreTerms(parts[1..]))
       case (Some(k), Some(ks)) => Some([k] + ks)
       case _ => None) == Some(SortKeys(fields))
  {
    var terms := SortTerms(fields);
    TermsWithoutComma(fields);
    SplitJoinedTerms(terms);
    ReadSortTerm(fields[0]);
    SortListsCons(fields);
    ReadMoreSortTerms(fields[1..]);
  }

  lemma TermsWithoutComma(fields: seq<string>)
    requires forall i :: 0 <= i < |fields| ==> ',' !in fields[i]
    ensures forall i :: 0 <= i < |fields| ==> ',' !in SortTerms(fields)[i]
  {
    forall i | 0 <= i < |fields|
      ensures ',' !in SortTerm(fields[i])
    {
      if StartsWith(fields[i], "-") {
        assert ',' !in fields[i][1..];
      }
    }
  }

  // ---------------------------------------------------------------- pages

  /** `Number(queryString[key]) || fallback` for integer text: the number
      unless the parameter is absent, not a number, or zero. */
  function NumberOr(q: Query, key: string, fallback: int): (n: int)
    ensures n == fallback || n != 0
    ensures n != fallback ==> Get(q, key).Some? && ParseInt(Get(q, key).value) == Some(n)
    ensures Get(q, key).None? ==> n == fallback
    ensures (Get(q, key).Some? && ParseInt(Get(q, key).value).Some?
              && ParseInt(Get(q, key).value).value != 0) ==> n == ParseInt(Get(q, key).value).value
  {
    match Get(q, key)
    case None => fallback
    case Some(v) =>
      match ParseInt(v)
      case Some(k) => if k != 0 then k else fallback
      case None => fallback
  }

  function Page(q: Query): int { NumberOr(q, "page", 1) }
  function Limit(q: Query): int { NumberOr(q, "limit", 3) }

  /** The LIMIT/OFFSET clause: pages of `limit` rows (3 by default) starting
      at page 1. */
  function ApplyPagination(q: Query): (clause: string)
    ensures StartsWith(clause, "LIMIT ")
  {
    var page := Page(q);
    var limit := Limit(q);
    var offset := (page - 1) * limit;
    "LIMIT " + ShowInt(limit) + " OFFSET " + ShowInt(offset)
  }

  /** An independent reader for `LIMIT <n> OFFSET <m>`. */
  function ReadLimitClause(clause: string): Option<(int, int)>
  {
    if !StartsWith(clause, "LIMIT ") then None
    else
      var parts := Split(clause[6..], ' ');
      if |parts| != 3 || parts[1] != "OFFSET" then None
      else
        match (ParseInt(parts[0]), ParseInt(parts[2]))
        case (Some(l), Some(o)) => Some((l, o))
        case _ => None
  }

  /** The clause asks for `limit` rows starting after `(page - 1) * limit`
      rows, with both numbers defaulted as `||` does. */
  lemma PaginationRoundTrip(q: Query)
    ensures ReadLimitClause(ApplyPagination(q)) == Some((Limit(q), (Page(q) - 1) * Limit(q)))
  {
    ReadLimitOf(Limit(q), (Page(q) - 1) * Limit(q));
  }

  lemma ReadLimitOf(limit: int, offset: int)
    ensures ReadLimitClause("LIMIT " + ShowInt(limit) + " OFFSET " + ShowInt(offset)) == Some((limit, offset))
  {
    var l := ShowInt(limit);
    var o := ShowInt(offset);
    LimitClauseSplits(l, o);
    ParseShowInt(limit);
    ParseShowInt(offset);
  }

  /** Past `LIMIT `, the clause splits at its spaces into the count, the
      keyword and the offset. */
  lemma LimitClauseSplits(l: string, o: string)
    requires ' ' !in l && ' ' !in o
    ensures var clause := "LIMIT " + l + " OFFSET " + o;
      StartsWith(clause, "LIMIT ") && Split(clause[6..], ' ') == [l, "OFFSET", o]
  {
    var clause := "LIMIT " + l + " OFFSET " + o;
    assert clause[..6] == "LIMIT ";
    assert clause[6..] == l + [' '] + ("OFFSET" + [' '] + o);
    SplitAtFirst(l, ' ', "OFFSET" + [' '] + o);
    SplitAtFirst("OFFSET", ' ', o);
    SplitWithoutSeparator(o, ' ');
  }

  // ---------------------------------------------------------------- filters

  const Excluded: seq<string> := ["limit", "sort", "page", "fields"]

  /** The pairs whose key is not in `keys`. */
  function Without(q: Query, keys: set<string>): (r: Query)
    ensures forall i :: 0 <= i < |r| ==> r[i].0 !in keys
    decreases |q|
  {
    if |q| == 0 then []
    else (if q[0].0 in keys then [] else [q[0]]) + Without(q[1..], keys)
  }

  lemma {:induction false} WithoutNothing(q: Query)
    ensures Without(q, {}) == q
    decreases |q|
  {
    if |q| > 0 {
      WithoutNothing(q[1..]);
      assert [q[0]] + q[1..] == q;
    }
  }

  /** `delete queryObj[key]`. */
  function Delete(q: Query, key: string): Query
  {
    Without(q, {key})
  }

  lemma {:induction false} DeleteWithout(q: Query, keys: set<string>, key: string)
    ensures Delete(Without(q, keys), key) == Without(q, keys + {key})
    decreases |q|
  {
    if |q| > 0 {
      DeleteWithout(q[1..], keys, key);
      var rest := Without(q[1..], keys);
      if q[0].0 in keys {
        assert Without(q, keys) == rest;
      } else {
        assert Without(q, keys) == [q[0]] + rest;
        assert Delete([q[0]] + rest, key) ==
               (if q[0].0 == key then [] else [q[0]]) + Delete(rest, key) by {
          assert ([q[0]] + rest)[1..] == rest;
        }
      }
    }
  }

  /** The pairs that become filters. */
  function Retained(q: Query): Query
  {
    Without(q, {"limit", "sort", "page", "fields"})
  }

  /** `Number(value)` when the value is numeric (`!isNaN`), the text otherwise. */
  datatype Param = Num(n: int) | Text(s: string)

  function Coerce(v: string): (p: Param)
    ensures p.Num? <==> ParseInt(v).Some?
    ensures p.Num? ==> ParseInt(v) == Some(p.n)
    ensures p.Text? ==> p.s == v
  {
    match ParseInt(v)
    case Some(n) => Num(n)
    case None => Text(v)
  }

  /** The SQL comparison for a bracketed operator; `=` for any other. */
  function Operator(op: string): string
  {
    if op == "gte" then ">="
    else if op == "gt" then ">"
    else if op == "lte" then "<="
    else if op == "lt" then "<"
    else if op == "ne" then "!="
    else "="
  }

  /** `key.replace("]", "")`: the first `]` removed. */
  function RemoveFirst(s: string, c: char): (r: string)
    ensures |r| <= |s|
    decreases |s|
  {
    if |s| == 0 then ""
    else if s[0] == c then s[1..]
    else [s[0]] + RemoveFirst(s[1..], c)
  }

  /** The filter for `key` with placeholder `$n`: `field op $n` for a key
      `field[op]`, `key = $n` otherwise. */
  function FilterText(key: string, n: int): string
  {
    if '[' in key then
      var parts := Split(RemoveFirst(key, ']'), '[');
      var op := if |parts| >= 2 then parts[1] else "";
      parts[0] + " " + Operator(op) + " $" + ShowInt(n)
    else key + " = $" + ShowInt(n)
  }

  /** The filters for `keys` numbered from `$first`. */
  function FilterTexts(keys: seq<string>, first: int): (fs: seq<string>)
    ensures |fs| == |keys|
    ensures forall i {:trigger fs[i]} :: 0 <= i < |keys| ==> fs[i] == FilterText(keys[i], first + i)
  {
    seq(|keys|, i requires 0 <= i < |keys| => FilterText(keys[i], first + i))
  }

  function KeysOf(q: Query): (ks: seq<string>)
    ensures |ks| == |q| && forall i {:trigger ks[i]} :: 0 <= i < |q| ==> ks[i] == q[i].0
  {
    seq(|q|, i requires 0 <= i < |q| => q[i].0)
  }

  function WhereClause(filters: seq<string>): string
  {
    if |filters| > 0 then "WHERE " + Join(filters, " AND ") else ""
  }

  /** `excludedFields.forEach(f => delete queryObj[f])` on a copy of the query. */
  method DeleteExcluded(q: Query) returns (queryObj: Query)
    ensures queryObj == Retained(q)
  {
    queryObj := q;
    var k := 0;
    WithoutNothing(q);
    assert Names(Excluded[..0]) == {};
    while k < |Excluded|
      invariant 0 <= k <= |Excluded|
      invariant queryObj == Without(q, Names(Excluded[..k]))
    {
      assert Excluded[..k + 1] == Excluded[..k] + [Excluded[k]];
      assert Names(Excluded[..k + 1]) == Names(Excluded[..k]) + {Excluded[k]};
      DeleteWithout(q, Names(Excluded[..k]), Excluded[k]);
      queryObj := Delete(queryObj, Excluded[k]);
      k := k + 1;
    }
    assert Excluded[..4] == Excluded;
    assert Names(Excluded) == {"limit", "sort", "page", "fields"};
  }

  /** `applyFiltering`: one filter per retained key, in order, with
      placeholders `$1`, `$2`, ...; the values go separately into `values`,
      aligned with the placeholders, numbers coerced. */
  method ApplyFiltering(q: Query) returns (whereByClause: string, values: seq<Param>)
    ensures var kept := Retained(q);
      && whereByClause == WhereClause(FilterTexts(KeysOf(kept), 1))
      && |values| == |kept|
      && forall i :: 0 <= i < |kept| ==> values[i] == Coerce(kept[i].1)
  {
    var queryObj := DeleteExcluded(q);
    whereByClause, values := FilterEach(queryObj);
  }

  /** applyFiltering's loop over the keys left after the deletions. */
  method FilterEach(queryObj: Query) returns (whereByClause: string, values: seq<Param>)
    ensures whereByClause == WhereClause(FilterTexts(KeysOf(queryObj), 1))
    ensures |values| == |queryObj|
    ensures forall i :: 0 <= i < |queryObj| ==> values[i] == Coerce(queryObj[i].1)
  {
    var filters: seq<string> := [];
    values := [];
    var i := 1;
    var pos := 0;
    while pos < |queryObj|
      invariant 0 <= pos <= |queryObj| && i == pos + 1
      invariant filters == FilterTexts(KeysOf(queryObj[..pos]), 1)
      invariant |values| == pos
      invariant forall j {:trigger values[j]} :: 0 <= j < pos ==> values[j] == Coerce(queryObj[j].1)
    {
      var key := queryObj[pos].0;
      var value := queryObj[pos].1;
      FilterTextsSnoc(queryObj, pos);
      var filter := FilterText(key, i);
      filters := filters + [filter];
      values := values + [Coerce(value)];
      i := i + 1;
      pos := pos + 1;
    }
    assert queryObj[..pos] == queryObj;
    whereByClause := if |filters| > 0 then "WHERE " + Join(filters, " AND ") else "";
  }

  /** The names listed in `ks`. */
  function Names(ks: seq<string>): set<string>
  {
    set x | x in ks
  }

  lemma FilterTextsSnoc(q: Query, pos: int)
    requires 0 <= pos < |q|
    ensures FilterTexts(KeysOf(q[..pos + 1]), 1) ==
            FilterTexts(KeysOf(q[..pos]), 1) + [FilterText(q[pos].0, pos + 1)]
  {
    var longer := FilterTexts(KeysOf(q[..pos + 1]), 1);
    var shorter := FilterTexts(KeysOf(q[..pos]), 1);
    forall i | 0 <= i < pos + 1
      ensures longer[i] == (shorter + [FilterText(q[pos].0, pos + 1)])[i]
    {
      assert q[..pos + 1][i] == q[i];
      if i < pos {
        assert q[..pos][i] == q[i];
      }
    }
  }

  /** None of the four reserved keys ever becomes a filter, and every other
      key does: the retained pairs are exactly the others, in order. */
  lemma {:induction false} RetainedKeys(q: Query)
    ensures forall i :: 0 <= i < |Retained(q)| ==> Retained(q)[i].0 !in Excluded
    ensures forall i :: 0 <= i < |q| && q[i].0 !in Excluded ==> q[i] in Retained(q)
    ensures forall p :: p in Retained(q) ==> p in q
    decreases |q|
  {
    if |q| > 0 {
      RetainedKeys(q[1..]);
      assert Retained(q) == (if q[0].0 in {"limit", "sort", "page", "fields"} then [] else [q[0]]) + Retained(q[1..]);
      forall i | 0 <= i < |q| && q[i].0 !in Excluded
        ensures q[i] in Retained(q)
      {
        if i > 0 {
          assert q[i] == q[1..][i - 1];
        }
      }
    }
  }

  /** The placeholder of the i-th filter is `$(i + 1)`. */
  lemma PlaceholdersInOrder(keys: seq<string>, i: int)
    requires 0 <= i < |keys|
    ensures EndsWith(FilterTexts(keys, 1)[i], " $" + ShowInt(i + 1))
  {
    var f := FilterTexts(keys, 1)[i];
    var tail := " $" + ShowInt(i + 1);
    assert f[|f| - |tail|..] == tail;
  }

  /** A key `field[op]` becomes the comparison `field op $n`, where `op` is
      one of the five known operators and every other operator text reads
      `=`; the plain key `field` becomes `field = $n`. */
  lemma BracketOperator(field: string, op: string, n: int)
    requires '[' !in field && ']' !in field && '[' !in op && ']' !in op
    ensures FilterText(field + "[" + op + "]", n) ==
              field + " " + Operator(op) + " $" + ShowInt(n)
    ensures Operator(op) != "=" <==> op in {"gte", "gt", "lte", "lt", "ne"}
    ensures FilterText(field, n) == field + " = $" + ShowInt(n)
  {
    var key := field + "[" + op + "]";
    assert key[|field|] == '[';
    RemoveBracketClose(field, op);
    assert field + "[" + op == field + ['['] + op;
    SplitAtFirst(field, '[', op);
    SplitWithoutSeparator(op, '[');
  }

  lemma {:induction false} RemoveBracketClose(field: string, op: string)
    requires ']' !in field && ']' !in op
    ensures RemoveFirst(field + "[" + op + "]", ']') == field + "[" + op
    decreases |field|
  {
    if |field| == 0 {
      RemoveAtEnd("[" + op, ']');
      assert field + "[" + op + "]" == ("[" + op) + "]";
    } else {
      assert ']' !in field[1..];
      RemoveBracketClose(field[1..], op);
      assert (field + "[" + op + "]")[1..] == field[1..] + "[" + op + "]";
      assert [field[0]] + (field[1..] + "[" + op) == field + "[" + op;
    }
  }

  lemma {:induction false} RemoveAtEnd(s: string, c: char)
    requires c !in s
    ensures RemoveFirst(s + [c], c) == s
    decreases |s|
  {
    if |s| > 0 {
      assert c !in s[1..];
      RemoveAtEnd(s[1..], c);
      assert (s + [c])[1..] == s[1..] + [c];
      assert [s[0]] + s[1..] == s;
    }
  }

  /** The WHERE text depends on the keys alone: two queries with the same
      keys in the same order produce the same clause, whatever their values. */
  lemma ClauseIgnoresValues(q1: Query, q2: Query)
    requires KeysOf(q1) == KeysOf(q2)
    ensures KeysOf(Retained(q1)) == KeysOf(Retained(q2))
    ensures WhereClause(FilterTexts(KeysOf(Retained(q1)), 1)) == WhereClause(FilterTexts(KeysOf(Retained(q2)), 1))
  {
    RetainedKeysAgree(q1, q2);
  }

  /** Queries with the same keys keep the same keys. */
  lemma {:induction false} RetainedKeysAgree(q1: Query, q2: Query)
    requires KeysOf(q1) == KeysOf(q2)
    ensures KeysOf(Retained(q1)) == KeysOf(Retained(q2))
    decreases |q1|
  {
    if |q1| > 0 {
      assert q1[0].0 == KeysOf(q1)[0] == KeysOf(q2)[0] == q2[0].0;
      assert KeysOf(q1[1..]) == KeysOf(q1)[1..] == KeysOf(q2)[1..] == KeysOf(q2[1..]);
      RetainedKeysAgree(q1[1..], q2[1..]);
      var r1 := Retained(q1[1..]);
      var r2 := Retained(q2[1..]);
      if q1[0].0 !in {"limit", "sort", "page", "fields"} {
        assert Retained(q1) == [q1[0]] + r1;
        assert Retained(q2) == [q2[0]] + r2;
        assert KeysOf([q1[0]] + r1) == [q1[0].0] + KeysOf(r1);
        assert KeysOf([q2[0]] + r2) == [q2[0].0] + KeysOf(r2);
      } else {
        assert Retained(q1) == r1;
        assert Retained(q2) == r2;
      }
    } else {
      assert |q2| == 0;
    }
  }
}
