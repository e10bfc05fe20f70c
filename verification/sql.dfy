/**
 * The SQL helpers of the C# infrastructure layer: the property-to-column
 * mapping and the statements `BaseRepository<T>` builds once per entity type
 * (`src/Infrastructure/Repositories/BaseRepository.cs`), the filtered query of
 * `EntryQueryBuilder.Build` (`src/Infrastructure/QueryBuilders/EntryQueryBuilder.cs`),
 * and the bool/int column conversion of `BoolIntHandler`
 * (`src/Infrastructure/Repositories/BoolIntHandler.cs`). Reflection over the
 * entity type is replaced by the list of its property names.
 */
module Sql {
  import opened Wrappers
  import opened Strings
  import opened Seqs

  // ------------------------------------------------------------ snake case

  /** Upper-case mapping of one character (ASCII letters only). */
  function Upper(c: char): char {
    if 'a' <= c <= 'z' then (c as int - 32) as char else c
  }

  /** What `ToSnakeCase` appends for the character `c` at index `i`. */
  function Piece(c: char, i: nat): (r: string)
    ensures forall j :: 0 <= j < |r| ==> !IsUpper(r[j])
  {
    if IsUpper(c) && i > 0 then ['_', Lower(c)] else [Lower(c)]
  }

  /** How many of the first `n` characters of `name`, past the first, are upper case. */
  function InnerUppers(name: string, n: nat): nat
    requires n <= |name|
  {
    if n <= 1 then 0 else InnerUppers(name, n - 1) + (if IsUpper(name[n - 1]) then 1 else 0)
  }

  /** The snake-case form of the first `n` characters of `name`. */
  function SnakePrefix(name: string, n: nat): (r: string)
    requires n <= |name|
    ensures |r| >= n
    ensures forall j :: 0 <= j < |r| ==> !IsUpper(r[j])
    decreases n
  {
    if n == 0 then [] else SnakePrefix(name, n - 1) + Piece(name[n - 1], n - 1)
  }

  /** One character more for every upper-case letter past the first. */
  lemma {:induction false} SnakeLength(name: string, n: nat)
    requires n <= |name|
    ensures |SnakePrefix(name, n)| == n + InnerUppers(name, n)
  {
    if n > 0 {
      SnakeLength(name, n - 1);
    }
  }

  /**
   * `ToSnakeCase(name)`: every character lower-cased, and an underscore put
   * before each upper-case letter that is not the first.
   */
  function Snake(name: string): string {
    SnakePrefix(name, |name|)
  }

  /** The builder loop of `ToSnakeCase`. */
  method ToSnakeCase(name: string) returns (r: string)
    ensures r == Snake(name)
    ensures name == [] ==> r == []
    ensures |r| == |name| + InnerUppers(name, |name|)
    ensures forall j :: 0 <= j < |r| ==> !IsUpper(r[j])
  {
    if name == [] {
      SnakeLength(name, 0);
      return name;
    }
    var sb := "";
    var i := 0;
    while i < |name|
      invariant 0 <= i <= |name| && sb == SnakePrefix(name, i)
    {
      var c := name[i];
      if IsUpper(c) && i > 0 {
        sb := sb + "_";
      }
      sb := sb + [Lower(c)];
      i := i + 1;
    }
    r := sb;
    SnakeLength(name, |name|);
  }

  /** The inverse reading of a snake-case name: an underscore upper-cases the letter after it. */
  function Unsnake(t: string): string
    decreases |t|
  {
    if t == [] then []
    else if |t| >= 2 && t[|t| - 2] == '_' then Unsnake(t[..|t| - 2]) + [Upper(t[|t| - 1])]
    else Unsnake(t[..|t| - 1]) + [t[|t| - 1]]
  }

  function LowerFirst(s: string): string {
    if s == [] then [] else [Lower(s[0])] + s[1..]
  }

  /** The last character written is the lowered last character read. */
  lemma {:induction false} SnakeLast(name: string, n: nat)
    requires 0 < n <= |name|
    ensures var r := SnakePrefix(name, n); r[|r| - 1] == Lower(name[n - 1])
  {
  }

  /** Reading back an underscore and a letter gives the upper-case letter. */
  lemma UnsnakeUpper(p: string, c: char)
    requires IsUpper(c)
    ensures Unsnake(p + ['_', Lower(c)]) == Unsnake(p) + [c]
  {
    var t := p + ['_', Lower(c)];
    assert t[..|t| - 2] == p;
  }

  /** Reading back a character not preceded by an underscore keeps it. */
  lemma UnsnakePlain(p: string, c: char)
    requires p == [] || p[|p| - 1] != '_'
    ensures Unsnake(p + [c]) == Unsnake(p) + [c]
  {
    var t := p + [c];
    assert t[..|t| - 1] == p;
  }

  /** A name without underscores is recovered from its snake case, up to the case of its first letter. */
  lemma {:induction false} SnakeRoundTrip(name: string, n: nat)
    requires n <= |name| && '_' !in name
    ensures Unsnake(SnakePrefix(name, n)) == LowerFirst(name[..n])
    decreases n
  {
    if n == 1 {
      assert SnakePrefix(name, 1) == [Lower(name[0])];
      assert Unsnake([Lower(name[0])]) == [Lower(name[0])] by {
        UnsnakePlain([], Lower(name[0]));
      }
    } else if n > 1 {
      SnakeRoundTrip(name, n - 1);
      SnakeRoundTripStep(name, n);
    }
  }

  /** One character more: the decoded text grows by that character. */
  lemma SnakeRoundTripStep(name: string, n: nat)
    requires 1 < n <= |name| && '_' !in name
    requires Unsnake(SnakePrefix(name, n - 1)) == LowerFirst(name[..n - 1])
    ensures Unsnake(SnakePrefix(name, n)) == LowerFirst(name[..n])
  {
    var c := name[n - 1];
    LowerFirstSnoc(name, n);
    if IsUpper(c) {
      UpperStep(name, n);
    } else {
      PlainStep(name, n);
    }
  }

  /** A capital is written as an underscore and its lower case, which decodes to the capital. */
  lemma UpperStep(name: string, n: nat)
    requires 1 < n <= |name| && IsUpper(name[n - 1])
    ensures Unsnake(SnakePrefix(name, n)) == Unsnake(SnakePrefix(name, n - 1)) + [name[n - 1]]
  {
    var p, c := SnakePrefix(name, n - 1), name[n - 1];
    assert SnakePrefix(name, n) == p + ['_', Lower(c)];
    UnsnakeUpper(p, c);
  }

  /** Any other character is written as it is and, with no underscore before it, decodes to itself. */
  lemma PlainStep(name: string, n: nat)
    requires 1 < n <= |name| && !IsUpper(name[n - 1]) && '_' !in name
    ensures Unsnake(SnakePrefix(name, n)) == Unsnake(SnakePrefix(name, n - 1)) + [name[n - 1]]
  {
    var p, c := SnakePrefix(name, n - 1), name[n - 1];
    assert SnakePrefix(name, n) == p + [c];
    SnakeLast(name, n - 1);
    assert name[n - 2] in name;
    UnsnakePlain(p, c);
  }

  lemma LowerFirstSnoc(name: string, n: nat)
    requires 1 < n <= |name|
    ensures LowerFirst(name[..n]) == LowerFirst(name[..n - 1]) + [name[n - 1]]
  {
    var s, c := name[..n - 1], name[n - 1];
    assert name[..n] == s + [c];
    assert (s + [c])[1..] == s[1..] + [c];
  }

  /**
   * Two underscore-free names whose first letters agree in case have the
   * same column name only if they are the same name.
   */
  lemma SnakeInjective(a: string, b: string)
    requires '_' !in a && '_' !in b && a != [] && b != []
    requires IsUpper(a[0]) <==> IsUpper(b[0])
    requires Snake(a) == Snake(b)
    ensures a == b
  {
    SnakeRoundTrip(a, |a|);
    SnakeRoundTrip(b, |b|);
    assert a[..|a|] == a && b[..|b|] == b;
    LowerFirstInjective(a, b);
  }

  lemma LowerFirstInjective(a: string, b: string)
    requires a != [] && b != [] && (IsUpper(a[0]) <==> IsUpper(b[0]))
    requires LowerFirst(a) == LowerFirst(b)
    ensures a == b
  {
    var la, lb := LowerFirst(a), LowerFirst(b);
    assert Lower(a[0]) == la[0] == lb[0] == Lower(b[0]);
    assert a[1..] == la[1..] == lb[1..] == b[1..];
    assert a == [a[0]] + a[1..] && b == [b[0]] + b[1..];
  }

  // ------------------------------------------------------------ statements

  /** The properties written by INSERT and UPDATE: every one except `Id`. */
  function Written(properties: seq<string>): (r: seq<string>)
    ensures forall p :: p in r <==> p in properties && p != "Id"
  {
    Where(properties, (p: string) => p != "Id")
  }

  function Columns(props: seq<string>): (r: seq<string>)
    ensures |r| == |props| && forall i :: 0 <= i < |props| ==> r[i] == Snake(props[i])
  {
    seq(|props|, i requires 0 <= i < |props| => Snake(props[i]))
  }

  function Parameters(props: seq<string>): (r: seq<string>)
    ensures |r| == |props| && forall i :: 0 <= i < |props| ==> r[i] == "@" + props[i]
  {
    seq(|props|, i requires 0 <= i < |props| => "@" + props[i])
  }

  function Assignments(props: seq<string>): (r: seq<string>)
    ensures |r| == |props|
    ensures forall i :: 0 <= i < |props| ==> r[i] == Columns(props)[i] + " = " + Parameters(props)[i]
  {
    seq(|props|, i requires 0 <= i < |props| => Snake(props[i]) + " = @" + props[i])
  }

  predicate StartsWith(s: string, prefix: string) {
    |prefix| <= |s| && s[..|prefix|] == prefix
  }

  predicate EndsWith(s: string, suffix: string) {
    |suffix| <= |s| && s[|s| - |suffix|..] == suffix
  }

  lemma PrefixOfConcat(a: string, b: string)
    ensures StartsWith(a + b, a)
  {
    assert (a + b)[..|a|] == a;
  }

  lemma PrefixExtends(s: string, p: string, t: string)
    requires StartsWith(s, p)
    ensures StartsWith(s + t, p)
  {
    assert (s + t)[..|p|] == s[..|p|];
  }

  lemma SuffixOfConcat(a: string, b: string)
    ensures EndsWith(a + b, b)
  {
    assert (a + b)[|a + b| - |b|..] == b;
  }

  datatype Statements = Statements(insert: string, update: string, selectAll: string, selectById: string, delete: string)

  /**
   * The five statements the repository constructor builds for `table`: the
   * insert lists every property but `Id` as its snake-case column and binds it
   * to `@` + its name, in the same order; the update sets each such column
   * from its parameter; the by-id statements select and delete the row whose
   * `id` is `@Id`.
   */
  function RepositorySql(table: string, properties: seq<string>): (r: Statements)
    ensures r.insert == "INSERT INTO " + table + " (" + Join(Columns(Written(properties)), ", ")
      + ") VALUES (" + Join(Parameters(Written(properties)), ", ") + "); SELECT last_insert_rowid();"
    ensures r.update == "UPDATE " + table + " SET " + Join(Assignments(Written(properties)), ", ") + " WHERE id = @Id"
    ensures r.selectAll == "SELECT * FROM " + table
    ensures r.selectById == r.selectAll + " WHERE id = @Id"
    ensures r.delete == "DELETE FROM " + table + " WHERE id = @Id"
    ensures StartsWith(r.insert, "INSERT INTO " + table + " (")
    ensures EndsWith(r.insert, "); SELECT last_insert_rowid();")
    ensures EndsWith(r.update, " WHERE id = @Id")
    ensures EndsWith(r.selectById, " WHERE id = @Id") && EndsWith(r.delete, " WHERE id = @Id")
  {
    var cols := Join(Columns(Written(properties)), ", ");
    var params := Join(Parameters(Written(properties)), ", ");
    var sets := Join(Assignments(Written(properties)), ", ");
    var head := "INSERT INTO " + table + " (";
    var listed := head + cols + ") VALUES (" + params;
    var updateHead := "UPDATE " + table + " SET " + sets;
    var selectAll := "SELECT * FROM " + table;
    var deleteHead := "DELETE FROM " + table;
    PrefixOfConcat(head, cols);
    PrefixExtends(head + cols, head, ") VALUES (");
    PrefixExtends(head + cols + ") VALUES (", head, params);
    PrefixExtends(listed, head, "); SELECT last_insert_rowid();");
    SuffixOfConcat(listed, "); SELECT last_insert_rowid();");
    SuffixOfConcat(updateHead, " WHERE id = @Id");
    SuffixOfConcat(selectAll, " WHERE id = @Id");
    SuffixOfConcat(deleteHead, " WHERE id = @Id");
    Statements(
      listed + "); SELECT last_insert_rowid();",
      updateHead + " WHERE id = @Id",
      selectAll,
      selectAll + " WHERE id = @Id",
      deleteHead + " WHERE id = @Id")
  }

  /** C# property names: non-empty, starting upper-case, without underscores. */
  predicate PascalNames(properties: seq<string>) {
    forall p :: p in properties ==> p != [] && IsUpper(p[0]) && '_' !in p
  }

  /**
   * For distinct C# property names, the INSERT and UPDATE statements name each
   * column once, and none of them is the `id` column the WHERE clause uses.
   */
  lemma ColumnsDistinctWithoutId(properties: seq<string>)
    requires PascalNames(properties) && Distinct(properties)
    ensures Distinct(Columns(Written(properties)))
    ensures "id" !in Columns(Written(properties))
  {
    var props := Written(properties);
    var cols := Columns(props);
    WrittenDistinct(properties);
    forall i, j | 0 <= i < j < |cols| ensures cols[i] != cols[j] {
      assert props[i] in props && props[j] in props;
      if cols[i] == cols[j] {
        SnakeInjective(props[i], props[j]);
      }
    }
    if "id" in cols {
      var i :| 0 <= i < |cols| && cols[i] == "id";
      assert props[i] in props;
      assert SnakePrefix("Id", 1) == "i";
      assert Snake("Id") == "id";
      SnakeInjective(props[i], "Id");
    }
  }

  lemma {:induction false} WrittenDistinct(properties: seq<string>)
    requires Distinct(properties)
    ensures Distinct(Written(properties))
  {
    if properties != [] {
      var rest := properties[1..];
      assert Distinct(rest);
      WrittenDistinct(rest);
      assert Written(properties) == if properties[0] != "Id" then [properties[0]] + Written(rest) else Written(rest);
      assert properties[0] !in rest;
    }
  }

  // ----------------------------------------------------------- entry query

  /** A bound parameter value: a LIKE pattern or a time. */
  datatype Value = Pattern(s: string) | Time(t: int)

  /** `EntryQueryOptions`: every filter is optional. */
  datatype EntryOptions = EntryOptions(tags: Option<seq<string>>, from: Option<int>, to: Option<int>, text: Option<string>)

  datatype Query = Query(sql: string, parameters: seq<(string, Value)>)

  const EntrySelect: string :=
    "SELECT id as Id, user_id as UserId, content as Content, tags as Tags, created_at as CreatedAt FROM entries"

  function TagName(i: nat): string { "tag" + Decimal(i) }

  function TagsOf(o: EntryOptions): seq<string> {
    if o.tags.Some? then o.tags.value else []
  }

  /** The condition and binding `Build` adds for the tag at index `i`. */
  function TagFilter(tag: string, i: nat): (string, (string, Value)) {
    ("tags LIKE @" + TagName(i), (TagName(i), Pattern("%" + tag + "%")))
  }

  function FromFilter(o: EntryOptions): seq<(string, (string, Value))> {
    if o.from.Some? then [("created_at >= @from", ("from", Time(o.from.value)))] else []
  }

  function ToFilter(o: EntryOptions): seq<(string, (string, Value))> {
    if o.to.Some? then [("created_at <= @to", ("to", Time(o.to.value)))] else []
  }

  function TextFilter(o: EntryOptions): seq<(string, (string, Value))> {
    if o.text.Some? && o.text.value != "" then [("content LIKE @text", ("text", Pattern("%" + o.text.value + "%")))] else []
  }

  /** The filters after the tags: the time bounds, then a non-empty text. */
  function OptionalFilters(o: EntryOptions): seq<(string, (string, Value))> {
    FromFilter(o) + ToFilter(o) + TextFilter(o)
  }

  /** The WHERE conditions, each with the parameter it binds, in the order `Build` adds them. */
  function Filters(o: EntryOptions): (r: seq<(string, (string, Value))>)
    ensures |r| >= |TagsOf(o)|
    ensures forall i :: 0 <= i < |TagsOf(o)| ==> r[i] == TagFilter(TagsOf(o)[i], i)
    ensures r[|TagsOf(o)|..] == OptionalFilters(o)
  {
    var tags := TagsOf(o);
    var t := seq(|tags|, i requires 0 <= i < |tags| => TagFilter(tags[i], i));
    assert (t + OptionalFilters(o))[|tags|..] == OptionalFilters(o);
    t + OptionalFilters(o)
  }

  /** The tag filters followed by the optional ones are the filters. */
  lemma FiltersSplit(o: EntryOptions, tagPart: seq<(string, (string, Value))>)
    requires |tagPart| == |TagsOf(o)|
    requires forall i :: 0 <= i < |tagPart| ==> tagPart[i] == TagFilter(TagsOf(o)[i], i)
    ensures Filters(o) == tagPart + OptionalFilters(o)
  {
    var f := Filters(o);
    assert f == f[..|tagPart|] + f[|tagPart|..];
    assert f[..|tagPart|] == tagPart;
  }

  /** The `conditions` list of a sequence of filters. */
  function CondsOf(f: seq<(string, (string, Value))>): seq<string> {
    seq(|f|, i requires 0 <= i < |f| => f[i].0)
  }

  /** The `parameters` of a sequence of filters. */
  function ParamsOf(f: seq<(string, (string, Value))>): seq<(string, Value)> {
    seq(|f|, i requires 0 <= i < |f| => f[i].1)
  }

  /**
   * The builder's text for the conditions: the select, then ` WHERE ` and the
   * conditions joined by ` AND ` when there are any.
   */
  function SqlOf(c: seq<string>): string {
    if |c| > 0 then EntrySelect + " WHERE " + Join(c, " AND ") else EntrySelect
  }

  function Conditions(o: EntryOptions): seq<string> {
    CondsOf(Filters(o))
  }

  function Bound(o: EntryOptions): seq<(string, Value)> {
    ParamsOf(Filters(o))
  }

  function EntrySql(o: EntryOptions): string {
    SqlOf(Conditions(o))
  }

  predicate AnyFilter(o: EntryOptions) {
    TagsOf(o) != [] || o.from.Some? || o.to.Some? || (o.text.Some? && o.text.value != "")
  }

  /** `EntryQueryBuilder.Build()`: one loop over the tags, then the optional filters. */
  method Build(o: EntryOptions) returns (q: Query)
    ensures q == Query(EntrySql(o), Bound(o))
  {
    var filters: seq<(string, (string, Value))> := [];
    if o.tags.Some? && o.tags.value != [] {
      var idx := 0;
      while idx < |o.tags.value|
        invariant 0 <= idx <= |o.tags.value| && |filters| == idx
        invariant forall i :: 0 <= i < idx ==> filters[i] == TagFilter(o.tags.value[i], i)
      {
        var name := TagName(idx);
        filters := filters + [("tags LIKE @" + name, (name, Pattern("%" + o.tags.value[idx] + "%")))];
        idx := idx + 1;
      }
    }
    ghost var tagPart := filters;
    FiltersSplit(o, tagPart);
    if o.from.Some? {
      filters := filters + [("created_at >= @from", ("from", Time(o.from.value)))];
    }
    assert filters == tagPart + FromFilter(o);
    if o.to.Some? {
      filters := filters + [("created_at <= @to", ("to", Time(o.to.value)))];
    }
    assert filters == tagPart + FromFilter(o) + ToFilter(o);
    if o.text.Some? && o.text.value != "" {
      filters := filters + [("content LIKE @text", ("text", Pattern("%" + o.text.value + "%")))];
    }
    assert filters == tagPart + FromFilter(o) + ToFilter(o) + TextFilter(o);
    ConcatAssoc(tagPart, FromFilter(o), ToFilter(o));
    ConcatAssoc(tagPart, FromFilter(o) + ToFilter(o), TextFilter(o));
    assert filters == Filters(o);
    var conditions := CondsOf(filters);
    var parameters := ParamsOf(filters);
    var sql := SqlOf(conditions);
    q := Query(sql, parameters);
  }

  /** The query has a WHERE clause exactly when some filter is set. */
  lemma WhereIffFilter(o: EntryOptions)
    ensures EntrySql(o) == EntrySelect <==> !AnyFilter(o)
  {
    var f := Filters(o);
    if AnyFilter(o) {
      if TagsOf(o) == [] {
        assert f[0] in f;
      }
      assert |f| > 0;
      assert |EntrySql(o)| > |EntrySelect|;
    }
  }

  /** `c` ends with the placeholder `@name`. */
  predicate EndsWithPlaceholder(c: string, name: string) {
    |c| > |name| && c[|c| - |name| - 1..] == "@" + name
  }

  /** Every condition ends with the placeholder of the parameter bound beside it. */
  lemma PlaceholdersBound(o: EntryOptions)
    ensures |Conditions(o)| == |Bound(o)|
    ensures forall i :: 0 <= i < |Bound(o)| ==> EndsWithPlaceholder(Conditions(o)[i], Bound(o)[i].0)
  {
    var f := Filters(o);
    var n := |TagsOf(o)|;
    forall i | 0 <= i < |f| ensures EndsWithPlaceholder(f[i].0, f[i].1.0) {
      if i < n {
        TagPlaceholder(TagsOf(o)[i], i);
      } else {
        assert f[i] == f[n..][i - n];
        OptionalPlaceholders(o);
      }
    }
  }

  lemma TagPlaceholder(tag: string, i: nat)
    ensures EndsWithPlaceholder(TagFilter(tag, i).0, TagFilter(tag, i).1.0)
  {
    var c, name := "tags LIKE @" + TagName(i), TagName(i);
    assert c[|c| - |name| - 1..] == "@" + name;
  }

  lemma OptionalPlaceholders(o: EntryOptions)
    ensures forall x :: x in OptionalFilters(o) ==> EndsWithPlaceholder(x.0, x.1.0)
  {
    assert EndsWithPlaceholder("created_at >= @from", "from");
    assert EndsWithPlaceholder("created_at <= @to", "to");
    assert EndsWithPlaceholder("content LIKE @text", "text");
  }

  /** Parameter names never repeat, so no binding overwrites another. */
  lemma ParameterNamesDistinct(o: EntryOptions)
    ensures forall i, j :: 0 <= i < j < |Bound(o)| ==> Bound(o)[i].0 != Bound(o)[j].0
  {
    forall i, j | 0 <= i < j < |Bound(o)| ensures Bound(o)[i].0 != Bound(o)[j].0 {
      NamesDiffer(o, i, j);
    }
  }

  lemma NamesDiffer(o: EntryOptions, i: nat, j: nat)
    requires i < j < |Bound(o)|
    ensures Bound(o)[i].0 != Bound(o)[j].0
  {
    var n := |TagsOf(o)|;
    BoundNameAt(o, i);
    BoundNameAt(o, j);
    if j < n {
      TagNamesDiffer(i, j);
    } else if i < n {
      OptionalNames(o, j - n);
      assert TagName(i)[1] == 'a';
    } else {
      OptionalNamesDistinct(o, i - n, j - n);
    }
  }

  lemma TagNamesDiffer(i: nat, j: nat)
    requires i != j
    ensures TagName(i) != TagName(j)
  {
    if TagName(i) == TagName(j) {
      assert Decimal(i) == TagName(i)[3..] == TagName(j)[3..] == Decimal(j);
      DecimalInjective(i, j);
    }
  }

  /** The name bound at `i`: a tag's `tag<i>`, or the name of an optional filter. */
  lemma BoundNameAt(o: EntryOptions, i: nat)
    requires i < |Bound(o)|
    ensures i < |TagsOf(o)| ==> Bound(o)[i].0 == TagName(i)
    ensures i >= |TagsOf(o)| ==> Bound(o)[i].0 == OptionalFilters(o)[i - |TagsOf(o)|].1.0
  {
    var f := Filters(o);
    assert Bound(o)[i] == f[i].1;
    if i >= |TagsOf(o)| {
      assert f[i] == f[|TagsOf(o)|..][i - |TagsOf(o)|];
    }
  }

  lemma OptionalNames(o: EntryOptions, a: nat)
    requires a < |OptionalFilters(o)|
    ensures OptionalFilters(o)[a].1.0 in {"from", "to", "text"}
    ensures OptionalFilters(o)[a].1.0[1] != 'a'
  {
  }

  lemma OptionalNamesDistinct(o: EntryOptions, a: nat, b: nat)
    requires a < b < |OptionalFilters(o)|
    ensures OptionalFilters(o)[a].1.0 != OptionalFilters(o)[b].1.0
  {
  }

  // --------------------------------------------------------- bool <-> int

  /** `Convert.ToInt32(value) == 1`; an integer outside 32 bits makes the conversion throw. */
  function ParseBool(value: int): (r: Result<bool, string>)
    ensures r.Err? <==> !(-0x8000_0000 <= value < 0x8000_0000)
    ensures r.Ok? ==> (r.value <==> value == 1)
  {
    if -0x8000_0000 <= value < 0x8000_0000 then Ok(value == 1) else Err("OverflowException")
  }

  /** The value `SetValue` stores: 1 for true, 0 for false. */
  function EncodeBool(b: bool): (v: int)
    ensures v == 0 || v == 1
  {
    if b then 1 else 0
  }

  /** A bound parameter whose value `SetValue` assigns. */
  class DbParameter {
    var value: Option<int>

    constructor ()
      ensures value == None
    {
      value := None;
    }
  }

  method SetValue(parameter: DbParameter, b: bool)
    modifies parameter
    ensures parameter.value == Some(EncodeBool(b))
  {
    parameter.value := Some(if b then 1 else 0);
  }

  /** Writing a bool and reading it back gives the same bool. */
  lemma BoolRoundTrip(b: bool)
    ensures ParseBool(EncodeBool(b)) == Ok(b)
  {
  }

  /** Reading then writing restores the stored integer exactly when it was 0 or 1. */
  lemma IntRoundTrip(v: int)
    requires ParseBool(v).Ok?
    ensures EncodeBool(ParseBool(v).value) == v <==> v == 0 || v == 1
  {
  }
}
