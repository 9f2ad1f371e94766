/** The TraceQL query builder of the Tempo search editor: a list of filters
    becomes one TraceQL span selector `{clause && clause && ...}`, and the
    tag lists offered by the editor are collected from the scopes the Tempo
    backend reports. Everything here is a pure function of its arguments;
    the list of intrinsic tag names is a parameter. */
module TraceQLUtils {
  import opened Common

  /** A filter's value: a single string, or the selections of a multi-select. */
  datatype FilterValue = Text(text: string) | Many(items: seq<string>)

  /** One row of the search editor. Optional fields are TypeScript's
      optional properties (absent is `undefined`). */
  datatype TraceqlFilter = TraceqlFilter(
    id: string,
    tag: Option<string>,
    operator: Option<string>,
    value: Option<FilterValue>,
    valueType: Option<string>,
    scope: Option<string>)

  /** A scope and the tags the backend knows for it. */
  datatype Scope = Scope(name: Option<string>, tags: Option<seq<string>>)

  /** The two search scopes that prefix a tag, as the (lower-case) values of
      the search-scope enumeration; lower-casing them changes nothing. */
  const ResourceScope: string := "resource"
  const SpanScope: string := "span"
  /** The scope name whose tags are not offered as unscoped tags. */
  const IntrinsicScope: string := "intrinsic"
  /** The id of the filter that chooses between span and trace duration. */
  const DurationTypeId: string := "duration-type"
  const DurationTag: string := "duration"
  const Quote: string := "\""

  // ---------------------------------------------------------------------
  // Array.prototype.join and its inverse for a one-character separator

  /** `items.join(sep)`: nothing for no items, separators only between items. */
  function Join(items: seq<string>, sep: string): string
  {
    if |items| == 0 then ""
    else if |items| == 1 then items[0]
    else items[0] + sep + Join(items[1..], sep)
  }

  /** Splits s at every occurrence of c (like `s.split(c)`): always at least
      one part, and one more part than there are separators. */
  function Split(s: string, c: char): (parts: seq<string>)
    ensures |parts| >= 1
    ensures forall i | 0 <= i < |parts| :: c !in parts[i]
  {
    if s == [] then [""]
    else
      var rest := Split(s[1..], c);
      if s[0] == c then [""] + rest else [[s[0]] + rest[0]] + rest[1..]
  }

  /** Adding one more item appends the separator and the item. */
  lemma {:induction false} JoinSnoc(items: seq<string>, x: string, sep: string)
    ensures Join(items + [x], sep) == if items == [] then x else Join(items, sep) + sep + x
  {
    if |items| > 1 {
      assert (items + [x])[1..] == items[1..] + [x];
      JoinSnoc(items[1..], x, sep);
    } else if |items| == 1 {
      assert (items + [x])[1..] == [x];
    }
  }

  lemma {:induction false} SplitWithoutSeparator(x: string, c: char)
    requires c !in x
    ensures Split(x, c) == [x]
  {
    if x != [] {
      assert c !in x[1..] by {
        forall k | 0 <= k < |x[1..]| ensures x[1..][k] != c { assert x[1..][k] == x[k + 1]; }
      }
      SplitWithoutSeparator(x[1..], c);
      assert [x[0]] + x[1..] == x;
    }
  }

  lemma {:induction false} SplitAfterPart(x: string, c: char, t: string)
    requires c !in x
    ensures Split(x + [c] + t, c) == [x] + Split(t, c)
  {
    var s := x + [c] + t;
    if x == [] {
      assert s[1..] == t;
    } else {
      assert s[1..] == x[1..] + [c] + t;
      assert c !in x[1..] by {
        forall k | 0 <= k < |x[1..]| ensures x[1..][k] != c { assert x[1..][k] == x[k + 1]; }
      }
      SplitAfterPart(x[1..], c, t);
      assert [x[0]] + x[1..] == x;
    }
  }

  /** Joining with c and splitting at c gives the items back, as long as no
      item contains c. */
  lemma {:induction false} SplitJoin(items: seq<string>, c: char)
    requires |items| >= 1
    requires forall i | 0 <= i < |items| :: c !in items[i]
    ensures Split(Join(items, [c]), c) == items
  {
    if |items| == 1 {
      SplitWithoutSeparator(items[0], c);
    } else {
      SplitJoin(items[1..], c);
      SplitAfterPart(items[0], c, Join(items[1..], [c]));
      assert [items[0]] + items[1..] == items;
    }
  }

  // ---------------------------------------------------------------------
  // Filters and clauses

  /** How a value, or `undefined`, reads inside a template literal. */
  function ValueText(v: Option<FilterValue>): string
  {
    match v
    case None => "undefined"
    case Some(Text(s)) => s
    case Some(Many(items)) => Join(items, ",")
  }

  /** How an optional string reads inside a template literal. */
  function Str(s: Option<string>): string
  {
    match s
    case None => "undefined"
    case Some(t) => t
  }

  function ValueLength(v: FilterValue): nat
  {
    match v
    case Text(s) => |s|
    case Many(items) => |items|
  }

  /** The filter is turned into a clause: a non-empty tag, a non-empty
      operator and a value of non-zero length (JavaScript truthiness). */
  predicate IsComplete(f: TraceqlFilter)
  {
    && f.tag.Some? && f.tag.value != ""
    && f.operator.Some? && f.operator.value != ""
    && f.value.Some? && ValueLength(f.value.value) > 0
  }

  predicate IsMultiValue(f: TraceqlFilter)
  {
    f.value.Some? && f.value.value.Many? && |f.value.value.items| > 1
  }

  /** The right-hand side of a clause. */
  function ValueHelper(f: TraceqlFilter): (r: string)
    ensures IsMultiValue(f) || f.valueType == Some("string") ==>
      |r| >= 2 && r[0] == '"' && r[|r| - 1] == '"'
  {
    if IsMultiValue(f) then Quote + Join(f.value.value.items, "|") + Quote
    else if f.valueType == Some("string") then Quote + ValueText(f.value) + Quote
    else ValueText(f.value)
  }

  /** A multi-select value is one quoted alternation: dropping the quotes
      and splitting at `|` gives the selections back when none of them
      contains `|`. Otherwise a string-typed value is quoted and any other
      value is written as it reads. */
  lemma ValueHelperDecodes(f: TraceqlFilter)
    ensures IsMultiValue(f) ==>
      var r, items := ValueHelper(f), f.value.value.items;
      && |r| >= 2 && r[0] == '"' && r[|r| - 1] == '"'
      && ((forall i | 0 <= i < |items| :: '|' !in items[i]) ==> Split(r[1..|r| - 1], '|') == items)
    ensures !IsMultiValue(f) && f.valueType == Some("string") ==> ValueHelper(f) == Quote + ValueText(f.value) + Quote
    ensures !IsMultiValue(f) && f.valueType != Some("string") ==> ValueHelper(f) == ValueText(f.value)
  {
    if IsMultiValue(f) {
      var r, items := ValueHelper(f), f.value.value.items;
      var inner := Join(items, "|");
      assert r[1..|r| - 1] == inner;
      if forall i | 0 <= i < |items| :: '|' !in items[i] {
        SplitJoin(items, '|');
      }
    }
  }

  /** The tag is one of the intrinsics (a lookup that finds the empty string
      counts as not found). */
  predicate IsIntrinsic(intrinsics: seq<string>, tag: Option<string>)
  {
    tag.Some? && tag.value != "" && tag.value in intrinsics
  }

  /** The scope that prefixes the tag: empty for an intrinsic, and otherwise
      `resource.`, `span.` or just `.`. */
  function ScopeHelper(intrinsics: seq<string>, f: TraceqlFilter): (prefix: string)
    ensures prefix == "" <==> IsIntrinsic(intrinsics, f.tag)
    ensures prefix != "" ==> prefix[|prefix| - 1] == '.' && '.' !in prefix[..|prefix| - 1]
  {
    if IsIntrinsic(intrinsics, f.tag) then ""
    else if f.scope == Some(ResourceScope) || f.scope == Some(SpanScope) then
      assert '.' !in ResourceScope && '.' !in SpanScope;
      f.scope.value + "."
    else "."
  }

  /** The scope name a prefix encodes: the resource or span scope, or none. */
  function PrefixScope(f: TraceqlFilter): string
  {
    if f.scope == Some(ResourceScope) || f.scope == Some(SpanScope) then f.scope.value else ""
  }

  /** The tag as the query names it: the tag behind its scope prefix, which
      is empty exactly for an intrinsic. */
  function FilterScopedTag(intrinsics: seq<string>, f: TraceqlFilter): (r: string)
    ensures |r| >= |Str(f.tag)| && r[|r| - |Str(f.tag)|..] == Str(f.tag)
    ensures |r| == |Str(f.tag)| <==> IsIntrinsic(intrinsics, f.tag)
  {
    ScopeHelper(intrinsics, f) + Str(f.tag)
  }

  /** A scoped tag can be read back: an intrinsic is its bare tag, and any
      other tag is prefixed with exactly the scope name before the first `.`
      (empty for a scope other than resource and span). */
  lemma ScopedTagNamesScope(intrinsics: seq<string>, f: TraceqlFilter)
    ensures IsIntrinsic(intrinsics, f.tag) ==> FilterScopedTag(intrinsics, f) == f.tag.value
    ensures !IsIntrinsic(intrinsics, f.tag) ==>
      Split(FilterScopedTag(intrinsics, f), '.')[0] == PrefixScope(f)
  {
    var p := ScopeHelper(intrinsics, f);
    if !IsIntrinsic(intrinsics, f.tag) {
      var name := p[..|p| - 1];
      assert p == name + ['.'];
      assert FilterScopedTag(intrinsics, f) == name + ['.'] + Str(f.tag);
      SplitAfterPart(name, '.', Str(f.tag));
      if f.scope == Some(ResourceScope) || f.scope == Some(SpanScope) {
        assert name == f.scope.value;
      } else {
        assert name == "";
      }
    }
  }

  /** The position of the first filter with the given id. */
  function FirstWithId(filters: seq<TraceqlFilter>, id: string): (r: Option<nat>)
    ensures r.Some? ==> r.value < |filters| && filters[r.value].id == id
    ensures r.Some? ==> forall j | 0 <= j < r.value :: filters[j].id != id
    ensures r.None? ==> forall j | 0 <= j < |filters| :: filters[j].id != id
  {
    if |filters| == 0 then None
    else if filters[0].id == id then Some(0)
    else
      match FirstWithId(filters[1..], id)
      case None => None
      case Some(k) => Some(k + 1)
  }

  /** `filters.find((f) => f.id === id)`. */
  function FindById(filters: seq<TraceqlFilter>, id: string): Option<TraceqlFilter>
  {
    match FirstWithId(filters, id)
    case None => None
    case Some(k) => Some(filters[k])
  }

  /** A filter added at the end is found only when no earlier filter has its id. */
  lemma FindByIdSnoc(filters: seq<TraceqlFilter>, f: TraceqlFilter, id: string)
    ensures FindById(filters + [f], id) ==
      if FindById(filters, id).Some? then FindById(filters, id)
      else if f.id == id then Some(f) else None
  {
    var all := filters + [f];
    match FirstWithId(filters, id)
    case Some(k) =>
      assert all[k] == filters[k];
      assert FirstWithId(all, id) == Some(k) by {
        FirstIsUnique(all, id, k);
      }
    case None =>
      if f.id == id {
        FirstIsUnique(all, id, |filters|);
      }
  }

  /** The first position with a given id is determined by the positions. */
  lemma FirstIsUnique(filters: seq<TraceqlFilter>, id: string, k: nat)
    requires k < |filters| && filters[k].id == id
    requires forall j | 0 <= j < k :: filters[j].id != id
    ensures FirstWithId(filters, id) == Some(k)
  {
    var r := FirstWithId(filters, id);
    assert r.Some?;
    assert !(r.value < k) && !(k < r.value);
  }

  /** The tag as written in the query: `duration` becomes `traceDuration`
      when the first duration-type filter asks for the trace duration. */
  function TagHelper(f: TraceqlFilter, filters: seq<TraceqlFilter>): (r: string)
    ensures r == Str(f.tag) || (f.tag == Some(DurationTag) && r == "traceDuration")
  {
    if f.tag == Some(DurationTag) then
      match FindById(filters, DurationTypeId)
      case Some(d) => if d.value == Some(Text("trace")) then "traceDuration" else DurationTag
      case None => DurationTag
    else Str(f.tag)
  }

  /** Only the duration tag is ever rewritten, and only to the trace
      duration, exactly when the first duration-type filter has the value
      `trace`. */
  lemma TagHelperRewritesOnlyDuration(f: TraceqlFilter, filters: seq<TraceqlFilter>)
    ensures TagHelper(f, filters) != Str(f.tag) <==>
      f.tag == Some(DurationTag) && FindById(filters, DurationTypeId).Some?
      && FindById(filters, DurationTypeId).value.value == Some(Text("trace"))
    ensures TagHelper(f, filters) != Str(f.tag) ==> TagHelper(f, filters) == "traceDuration"
  {
  }

  /** One clause: scope, tag, operator and value, side by side. */
  function Clause(intrinsics: seq<string>, filters: seq<TraceqlFilter>, f: TraceqlFilter): string
  {
    ScopeHelper(intrinsics, f) + TagHelper(f, filters) + Str(f.operator) + ValueHelper(f)
  }

  /** The complete filters, in their order. */
  function Selected(filters: seq<TraceqlFilter>): (r: seq<TraceqlFilter>)
    ensures forall f :: f in r <==> f in filters && IsComplete(f)
    ensures |r| <= |filters|
  {
    if |filters| == 0 then []
    else
      assert filters == [filters[0]] + filters[1..];
      (if IsComplete(filters[0]) then [filters[0]] else []) + Selected(filters[1..])
  }

  lemma {:induction false} SelectedAppend(a: seq<TraceqlFilter>, b: seq<TraceqlFilter>)
    ensures Selected(a + b) == Selected(a) + Selected(b)
  {
    if a != [] {
      assert (a + b)[0] == a[0] && (a + b)[1..] == a[1..] + b;
      SelectedAppend(a[1..], b);
      var head := if IsComplete(a[0]) then [a[0]] else [];
      assert Selected(a + b) == head + (Selected(a[1..]) + Selected(b));
      assert Selected(a) == head + Selected(a[1..]);
    } else {
      assert a + b == b;
    }
  }

  function Clauses(intrinsics: seq<string>, filters: seq<TraceqlFilter>, selected: seq<TraceqlFilter>): (r: seq<string>)
    ensures |r| == |selected|
  {
    seq(|selected|, i requires 0 <= i < |selected| => Clause(intrinsics, filters, selected[i]))
  }

  /** `{` and `}` around the clauses of the complete filters joined by ` && `. */
  function GenerateQueryFromFilters(intrinsics: seq<string>, filters: seq<TraceqlFilter>): (q: string)
    ensures |q| >= 2 && q[0] == '{' && q[|q| - 1] == '}'
  {
    Selector(Clauses(intrinsics, filters, Selected(filters)))
  }

  /** A span selector: the clauses joined by ` && ` inside braces. */
  function Selector(clauses: seq<string>): (q: string)
    ensures |q| >= 2 && q[0] == '{' && q[|q| - 1] == '}'
  {
    "{" + Join(clauses, " && ") + "}"
  }

  /** One more clause goes before the closing brace, after ` && ` unless it
      is the first. */
  lemma SelectorSnoc(clauses: seq<string>, c: string)
    ensures var q := Selector(clauses);
      Selector(clauses + [c]) == q[..|q| - 1] + (if clauses == [] then "" else " && ") + c + "}"
  {
    JoinSnoc(clauses, c, " && ");
    var q := Selector(clauses);
    assert q[..|q| - 1] == "{" + Join(clauses, " && ");
  }

  /** Without a complete filter the query is the empty selector. */
  lemma QueryWithoutCompleteFilter(intrinsics: seq<string>, filters: seq<TraceqlFilter>)
    requires forall i | 0 <= i < |filters| :: !IsComplete(filters[i])
    ensures GenerateQueryFromFilters(intrinsics, filters) == "{}"
  {
    NoneSelected(filters);
  }

  lemma {:induction false} NoneSelected(filters: seq<TraceqlFilter>)
    requires forall i | 0 <= i < |filters| :: !IsComplete(filters[i])
    ensures Selected(filters) == []
  {
    if filters != [] {
      assert forall i | 0 <= i < |filters[1..]| :: filters[1..][i] == filters[i + 1];
      NoneSelected(filters[1..]);
    }
  }

  /** Adding a filter that leaves the duration-type lookup as it was does
      not change the clauses already there. */
  lemma ClausesUnchangedBySnoc(intrinsics: seq<string>, filters: seq<TraceqlFilter>, f: TraceqlFilter, sel: seq<TraceqlFilter>)
    requires f.id != DurationTypeId || FindById(filters, DurationTypeId).Some?
    ensures Clauses(intrinsics, filters + [f], sel) == Clauses(intrinsics, filters, sel)
  {
    FindByIdSnoc(filters, f, DurationTypeId);
    var a, b := Clauses(intrinsics, filters + [f], sel), Clauses(intrinsics, filters, sel);
    forall i | 0 <= i < |sel| ensures a[i] == b[i] {
      assert TagHelper(sel[i], filters + [f]) == TagHelper(sel[i], filters);
    }
  }

  /** The complete filters of a longer list: the new filter joins them
      exactly when it is complete. */
  lemma SelectedSnoc(filters: seq<TraceqlFilter>, f: TraceqlFilter)
    ensures Selected(filters + [f]) == Selected(filters) + (if IsComplete(f) then [f] else [])
  {
    SelectedAppend(filters, [f]);
    assert [f][1..] == [];
  }

  /** The clauses of a longer list: those before, then the new filter's. */
  lemma ClausesSnoc(intrinsics: seq<string>, filters: seq<TraceqlFilter>, f: TraceqlFilter, sel: seq<TraceqlFilter>)
    requires f.id != DurationTypeId || FindById(filters, DurationTypeId).Some?
    ensures Clauses(intrinsics, filters + [f], sel + [f]) == Clauses(intrinsics, filters, sel) + [Clause(intrinsics, filters, f)]
  {
    ClausesUnchangedBySnoc(intrinsics, filters, f, sel);
    FindByIdSnoc(filters, f, DurationTypeId);
    var a, b := Clauses(intrinsics, filters + [f], sel + [f]), Clauses(intrinsics, filters + [f], sel);
    assert TagHelper(f, filters + [f]) == TagHelper(f, filters);
    assert a == b + [Clause(intrinsics, filters, f)];
  }

  /** Adding an incomplete filter (that is not the first duration-type
      filter) leaves the query unchanged; adding a complete one appends its
      clause, after ` && ` when there were clauses before. */
  lemma QueryOfAddedFilter(intrinsics: seq<string>, filters: seq<TraceqlFilter>, f: TraceqlFilter)
    requires f.id != DurationTypeId || FindById(filters, DurationTypeId).Some?
    ensures !IsComplete(f) ==> GenerateQueryFromFilters(intrinsics, filters + [f]) == GenerateQueryFromFilters(intrinsics, filters)
    ensures IsComplete(f) ==>
      var q := GenerateQueryFromFilters(intrinsics, filters);
      GenerateQueryFromFilters(intrinsics, filters + [f]) ==
        q[..|q| - 1] + (if Selected(filters) == [] then "" else " && ") + Clause(intrinsics, filters, f) + "}"
  {
    var sel := Selected(filters);
    SelectedSnoc(filters, f);
    if IsComplete(f) {
      ClausesSnoc(intrinsics, filters, f, sel);
      SelectorSnoc(Clauses(intrinsics, filters, sel), Clause(intrinsics, filters, f));
      if sel == [] {
        assert Clauses(intrinsics, filters, sel) == [];
      }
    } else {
      assert Selected(filters + [f]) == sel;
      ClausesUnchangedBySnoc(intrinsics, filters, f, sel);
    }
  }

  // ---------------------------------------------------------------------
  // Tag lists

  /** lodash `uniq`: the first occurrence of every element, in order. */
  function Uniq(s: seq<string>): (r: seq<string>)
    ensures forall x :: x in r <==> x in s
    ensures forall i, j | 0 <= i < j < |r| :: r[i] != r[j]
    ensures |r| <= |s|
  {
    if |s| == 0 then []
    else
      var u := Uniq(s[..|s| - 1]);
      assert s == s[..|s| - 1] + [s[|s| - 1]];
      if s[|s| - 1] in u then u else u + [s[|s| - 1]]
  }

  /** On a list without duplicates `uniq` changes nothing. */
  lemma {:induction false} UniqOfDistinct(s: seq<string>)
    requires forall i, j | 0 <= i < j < |s| :: s[i] != s[j]
    ensures Uniq(s) == s
  {
    if |s| > 0 {
      var init := s[..|s| - 1];
      UniqOfDistinct(init);
      assert s[|s| - 1] !in init;
      assert init + [s[|s| - 1]] == s;
    }
  }

  /** `Array.prototype.flat` for one level. */
  function Flatten(ss: seq<seq<string>>): (r: seq<string>)
    ensures forall x :: x in r <==> exists i | 0 <= i < |ss| :: x in ss[i]
  {
    if |ss| == 0 then []
    else
      var rest := Flatten(ss[1..]);
      assert forall x :: x in rest <==> exists i | 1 <= i < |ss| :: x in ss[i] by {
        forall x ensures x in rest <==> exists i | 1 <= i < |ss| :: x in ss[i] {
          if x in rest {
            var k :| 0 <= k < |ss[1..]| && x in ss[1..][k];
            assert x in ss[k + 1];
          }
          if exists i | 1 <= i < |ss| :: x in ss[i] {
            var k :| 1 <= k < |ss| && x in ss[k];
            assert x in ss[1..][k - 1];
          }
        }
      }
      ss[0] + rest
  }

  /** The tags of the scopes that `keep` selects, a scope without tags
      contributing none. */
  function TagLists(scopes: seq<Scope>, keep: Scope -> bool): (r: seq<seq<string>>)
    ensures |r| == |scopes|
  {
    seq(|scopes|, i requires 0 <= i < |scopes| =>
      if keep(scopes[i]) && scopes[i].tags.Some? then scopes[i].tags.value else [])
  }

  /** The distinct tags of the scopes that `keep` selects. */
  function TagsWhere(scopes: seq<Scope>, keep: Scope -> bool): (r: seq<string>)
    ensures forall i, j | 0 <= i < j < |r| :: r[i] != r[j]
    ensures forall t :: t in r <==>
      exists i | 0 <= i < |scopes| :: keep(scopes[i]) && scopes[i].tags.Some? && t in scopes[i].tags.value
  {
    var lists := TagLists(scopes, keep);
    assert forall i | 0 <= i < |scopes| :: lists[i] == if keep(scopes[i]) && scopes[i].tags.Some? then scopes[i].tags.value else [];
    Uniq(Flatten(lists))
  }

  function HasTags(s: Scope): bool { s.tags.Some? }

  /** A named scope other than the intrinsic one. */
  function IsUnscoped(s: Scope): bool
  {
    s.name.Some? && s.name.value != "" && s.name.value != IntrinsicScope
  }

  /** Every tag of every scope, once. */
  function GetAllTags(scopes: seq<Scope>): (r: seq<string>)
    ensures forall i, j | 0 <= i < j < |r| :: r[i] != r[j]
    ensures forall t :: t in r <==>
      exists i | 0 <= i < |scopes| :: scopes[i].tags.Some? && t in scopes[i].tags.value
  {
    TagsWhere(scopes, HasTags)
  }

  /** The tags of the named scopes other than `intrinsic`, once each. */
  function GetUnscopedTags(scopes: seq<Scope>): (r: seq<string>)
    ensures forall i, j | 0 <= i < j < |r| :: r[i] != r[j]
    ensures forall t :: t in r <==>
      exists i | 0 <= i < |scopes| ::
        scopes[i].name.Some? && scopes[i].name.value != "" && scopes[i].name.value != IntrinsicScope
        && scopes[i].tags.Some? && t in scopes[i].tags.value
  {
    TagsWhere(scopes, IsUnscoped)
  }

  /** The tags of the scopes named `scope`, once each. */
  function GetTagsByScope(scopes: seq<Scope>, scope: string): (r: seq<string>)
    ensures forall i, j | 0 <= i < j < |r| :: r[i] != r[j]
    ensures forall t :: t in r <==>
      exists i | 0 <= i < |scopes| ::
        scopes[i].name == Some(scope) && scope != "" && scopes[i].tags.Some? && t in scopes[i].tags.value
  {
    TagsWhere(scopes, (s: Scope) => s.name.Some? && s.name.value != "" && s.name.value == scope)
  }

  /** `s.filter((t) => !excluded.includes(t))`. */
  function Remove(s: seq<string>, excluded: seq<Option<string>>): (r: seq<string>)
    ensures |r| <= |s|
  {
    if |s| == 0 then []
    else (if Some(s[0]) in excluded then [] else [s[0]]) + Remove(s[1..], excluded)
  }

  /** What is kept is exactly what is not excluded. */
  lemma {:induction false} RemoveKeeps(s: seq<string>, excluded: seq<Option<string>>)
    ensures forall t :: t in Remove(s, excluded) <==> t in s && Some(t) !in excluded
  {
    if s != [] {
      RemoveKeeps(s[1..], excluded);
      assert s == [s[0]] + s[1..];
    }
  }

  lemma {:induction false} RemoveAppend(a: seq<string>, b: seq<string>, excluded: seq<Option<string>>)
    ensures Remove(a + b, excluded) == Remove(a, excluded) + Remove(b, excluded)
  {
    if a != [] {
      assert (a + b)[0] == a[0] && (a + b)[1..] == a[1..] + b;
      RemoveAppend(a[1..], b, excluded);
      var head := if Some(a[0]) in excluded then [] else [a[0]];
      assert Remove(a + b, excluded) == head + (Remove(a[1..], excluded) + Remove(b, excluded));
      assert Remove(a, excluded) == head + Remove(a[1..], excluded);
    } else {
      assert a + b == b;
    }
  }

  /** Removing nothing that occurs keeps the list as it is. */
  lemma {:induction false} RemoveNothing(s: seq<string>, excluded: seq<Option<string>>)
    requires forall i | 0 <= i < |s| :: Some(s[i]) !in excluded
    ensures Remove(s, excluded) == s
  {
    if s != [] {
      RemoveNothing(s[1..], excluded);
      assert [s[0]] + s[1..] == s;
    }
  }

  /** The intrinsics followed by the tags, minus the static tags. */
  function GetFilteredTags(intrinsics: seq<string>, tags: seq<string>, staticTags: seq<Option<string>>): (r: seq<string>)
    ensures r == Remove(intrinsics, staticTags) + Remove(tags, staticTags)
    ensures forall t :: t in r <==> (t in intrinsics || t in tags) && Some(t) !in staticTags
  {
    RemoveAppend(intrinsics, tags, staticTags);
    RemoveKeeps(intrinsics + tags, staticTags);
    Remove(intrinsics + tags, staticTags)
  }

  // ---------------------------------------------------------------------
  // Editor helpers

  /** `replaceAt(array, index, value)` on a copy of the array, holes (and
      `undefined`) written as None: an index past the end grows the copy,
      a negative index sets no element at all. */
  function ReplaceAt<T>(a: seq<Option<T>>, index: int, v: T): (r: seq<Option<T>>)
    ensures index < 0 ==> r == a
    ensures index >= 0 ==> |r| == (if index < |a| then |a| else index + 1) && r[index] == Some(v)
    ensures forall j | 0 <= j < |r| && j != index :: r[j] == if j < |a| then a[j] else None
  {
    if index < 0 then a
    else if index < |a| then a[index := Some(v)]
    else a + seq(index - |a|, _ => None) + [Some(v)]
  }

  datatype SelectableValue = SelectableValue(caption: string, value: string, description: Option<string>)

  /** The operators that carry a description. */
  const Operators: seq<string> := ["=", "!=", ">", ">=", "<", "<=", "=~", "!~"]

  function OperatorDescription(op: string): Option<string>
  {
    if op == "=" then Some("Equals")
    else if op == "!=" then Some("Not equals")
    else if op == ">" then Some("Greater")
    else if op == ">=" then Some("Greater or Equal")
    else if op == "<" then Some("Less")
    else if op == "<=" then Some("Less or Equal")
    else if op == "=~" then Some("Matches regex")
    else if op == "!~" then Some("Does not match regex")
    else None
  }

  /** The option shown for an operator: the operator as caption (label) and value, and
      a description exactly for the known operators. */
  function OperatorSelectableValue(op: string): (r: SelectableValue)
    ensures r.caption == op && r.value == op
    ensures r.description.Some? <==> op in Operators
  {
    SelectableValue(op, op, OperatorDescription(op))
  }

  /** A title is either one of the two fixed names or the start-cased scoped
      tag (start-casing itself is not modelled). */
  datatype Title = Fixed(text: string) | StartCase(scopedTag: string)

  function FilterTitle(intrinsics: seq<string>, f: TraceqlFilter): (t: Title)
    ensures t.Fixed? <==> f.tag == Some("name") || (f.tag == Some("service.name") && f.scope == Some(ResourceScope))
    ensures t.StartCase? ==> t.scopedTag == FilterScopedTag(intrinsics, f)
  {
    if f.tag == Some("name") then Fixed("Span Name")
    else if f.tag == Some("service.name") && f.scope == Some(ResourceScope) then Fixed("Service Name")
    else StartCase(FilterScopedTag(intrinsics, f))
  }
}
