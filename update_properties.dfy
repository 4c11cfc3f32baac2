/** What the update handler promises, proved about the specification its
    builder is verified against: which fields the statement sets and in what
    order, how its placeholders are numbered and bound, and that its SET list
    reads back to exactly those assignments. */
module UpdateProperties {
  import opened Wrappers
  import opened Text
  import opened ComplaintUpdate

  // ---------------------------------------------------------------------
  // Reading the specification lists by position

  lemma {:induction false} SetClausesAt(a: seq<Assignment>, k: nat)
    requires k < |a|
    ensures SetClauses(a)[k] == Clause(a[k].column, k + 1)
    decreases |a|
  {
    if k < |a| - 1 {
      SetClausesAt(a[..|a| - 1], k);
    }
  }

  lemma {:induction false} ValuesAt(a: seq<Assignment>, k: nat)
    requires k < |a|
    ensures Values(a)[k] == a[k].value
    decreases |a|
  {
    if k < |a| - 1 {
      ValuesAt(a[..|a| - 1], k);
    }
  }

  lemma {:induction false} ColumnsAt(a: seq<Assignment>, k: nat)
    requires k < |a|
    ensures Columns(a)[k] == a[k].column
    decreases |a|
  {
    if k < |a| - 1 {
      ColumnsAt(a[..|a| - 1], k);
    }
  }

  // ---------------------------------------------------------------------
  // Which fields are set, and in what order

  /** `a` is the ordered filter of the truthy candidates of `cs`, taken at
      the positions `p`: the k-th assignment comes from the candidate at
      `p[k]`, which is truthy; the positions increase; and every truthy
      candidate's position is among them. */
  ghost predicate OrderedFilter(cs: seq<Candidate>, a: seq<Assignment>, p: seq<nat>) {
    && |a| == |p|
    && (forall k :: 0 <= k < |p| ==>
          p[k] < |cs| && Truthy(cs[p[k]].value) && a[k] == Assignment(cs[p[k]].column, cs[p[k]].value.value))
    && (forall k, l :: 0 <= k < l < |p| ==> p[k] < p[l])
    && (forall j :: 0 <= j < |cs| && Truthy(cs[j].value) ==> j in p)
  }

  /** Looking at one more candidate extends the filter by its contribution. */
  lemma OrderedFilterExtend(cs: seq<Candidate>, a: seq<Assignment>, p: seq<nat>, c: Candidate)
    requires OrderedFilter(cs, a, p)
    ensures OrderedFilter(cs + [c], a + Contribution(c.column, c.value), p + (if Truthy(c.value) then [|cs|] else []))
  {
    var cs' := cs + [c];
    assert forall k :: 0 <= k < |p| ==> p[k] < |cs| && cs'[p[k]] == cs[p[k]];
    if !Truthy(c.value) {
      assert a + Contribution(c.column, c.value) == a;
      assert p + [] == p;
    }
  }

  /** `Included` is exactly the ordered filter of the truthy candidates. */
  lemma {:induction false} IncludedIsOrderedFilter(cs: seq<Candidate>)
    ensures OrderedFilter(cs, Included(cs), TruthyPositions(cs))
    decreases |cs|
  {
    if cs != [] {
      var n := |cs| - 1;
      IncludedIsOrderedFilter(cs[..n]);
      OrderedFilterExtend(cs[..n], Included(cs[..n]), TruthyPositions(cs[..n]), cs[n]);
      assert cs[..n] + [cs[n]] == cs;
    }
  }

  /** In the handler's fixed candidate list, the candidate at position `j`
      sets the column of rank `j`. */
  lemma CandidateRanks(body: UpdateBody, filePath: Option<string>)
    ensures |Candidates(body, filePath)| == 6
    ensures forall j :: 0 <= j < 6 ==> Rank(Candidates(body, filePath)[j].column) == j
  {
  }

  /** Along the assignments of a request, each column's rank is the position
      of the candidate it came from. */
  lemma RanksArePositions(body: UpdateBody, filePath: Option<string>)
    ensures var cs := Candidates(body, filePath);
      var a, p := Included(cs), TruthyPositions(cs);
      && OrderedFilter(cs, a, p)
      && (forall k :: 0 <= k < |a| ==> Rank(a[k].column) == p[k])
  {
    var cs := Candidates(body, filePath);
    var a, p := Included(cs), TruthyPositions(cs);
    IncludedIsOrderedFilter(cs);
    CandidateRanks(body, filePath);
    forall k | 0 <= k < |a|
      ensures Rank(a[k].column) == p[k]
    {
      assert a[k].column == cs[p[k]].column;
    }
  }

  /** The statement sets a field iff the request's value for it is truthy. */
  lemma SetIffTruthy(body: UpdateBody, filePath: Option<string>)
    ensures var cs, a := Candidates(body, filePath), Included(Candidates(body, filePath));
      forall j :: 0 <= j < |cs| ==> (cs[j].column in Columns(a) <==> Truthy(cs[j].value))
  {
    var cs := Candidates(body, filePath);
    var a, p := Included(cs), TruthyPositions(cs);
    RanksArePositions(body, filePath);
    CandidateRanks(body, filePath);
    forall j | 0 <= j < |cs|
      ensures cs[j].column in Columns(a) <==> Truthy(cs[j].value)
    {
      if Truthy(cs[j].value) {
        var k :| 0 <= k < |p| && p[k] == j;
        ColumnsAt(a, k);
      }
      if cs[j].column in Columns(a) {
        var k :| 0 <= k < |a| && Columns(a)[k] == cs[j].column;
        ColumnsAt(a, k);
        assert p[k] == j;
      }
    }
  }

  /** The fields the statement sets appear in the handler's fixed order
      (subject, description, status, type, priority, attachment_path), so
      none of them twice. */
  lemma SetInFixedOrder(body: UpdateBody, filePath: Option<string>)
    ensures var a := Included(Candidates(body, filePath));
      forall k, l :: 0 <= k < l < |a| ==> Rank(a[k].column) < Rank(a[l].column)
  {
    RanksArePositions(body, filePath);
  }

  /** Each field the statement sets is bound to the request's own value for
      that field, which is truthy. */
  lemma SetFromRequest(body: UpdateBody, filePath: Option<string>)
    ensures var cs, a := Candidates(body, filePath), Included(Candidates(body, filePath));
      forall k :: 0 <= k < |a| ==>
        Rank(a[k].column) < |cs| && cs[Rank(a[k].column)].column == a[k].column
        && Truthy(cs[Rank(a[k].column)].value)
        && a[k].value == cs[Rank(a[k].column)].value.value
  {
    RanksArePositions(body, filePath);
  }

  /** The 400 answer happens exactly when no field of the request is truthy. */
  lemma NoDataIffNothingTruthy(body: UpdateBody, filePath: Option<string>)
    ensures var cs := Candidates(body, filePath);
      Included(cs) == [] <==> forall j :: 0 <= j < |cs| ==> !Truthy(cs[j].value)
  {
    var cs := Candidates(body, filePath);
    IncludedIsOrderedFilter(cs);
    if Included(cs) != [] {
      assert Truthy(cs[TruthyPositions(cs)[0]].value);
    }
  }

  /** A truthy file path is always the last assignment of the statement, so
      its clause is `attachment_path = $n`, the last of the SET list. */
  lemma AttachmentPathLast(body: UpdateBody, filePath: Option<string>)
    ensures var a := Included(Candidates(body, filePath));
      Truthy(filePath) ==>
        |a| > 0 && a[|a| - 1] == Assignment(AttachmentPath, filePath.value)
        && SetClauses(a)[|a| - 1] == Clause(AttachmentPath, |a|)
  {
    var cs := Candidates(body, filePath);
    var a, p := Included(cs), TruthyPositions(cs);
    RanksArePositions(body, filePath);
    if Truthy(filePath) {
      assert Truthy(cs[5].value);
      var m :| 0 <= m < |p| && p[m] == 5;
      // Positions are below 6 and increase, so position 5 can only be the last.
      assert p[|a| - 1] < 6;
      assert m == |a| - 1;
      SetClausesAt(a, |a| - 1);
    }
  }

  /** `attachment_path` is set by no assignment but the last, and only when the
      file path is truthy. */
  lemma AttachmentPathNowhereElse(body: UpdateBody, filePath: Option<string>)
    ensures var a := Included(Candidates(body, filePath));
      forall k :: 0 <= k < |a| && a[k].column == AttachmentPath ==> Truthy(filePath) && k == |a| - 1
  {
    var cs := Candidates(body, filePath);
    var a, p := Included(cs), TruthyPositions(cs);
    RanksArePositions(body, filePath);
    forall k | 0 <= k < |a| && a[k].column == AttachmentPath
      ensures Truthy(filePath) && k == |a| - 1
    {
      assert p[k] == 5 && cs[5].value == filePath;
      assert p[|a| - 1] < 6;
    }
  }

  // ---------------------------------------------------------------------
  // Placeholders, parameters and the SET list as text

  lemma ColumnNames(c: Column)
    ensures ColumnNamed(Name(c)) == Some(c)
    ensures ' ' !in Name(c) && ',' !in Name(c)
  {
  }

  /** Where the pieces of a clause `name = $k` sit, for a name without a space. */
  lemma ClausePieces(name: string, k: nat)
    requires ' ' !in name
    ensures var s := name + " = $" + Decimal(k);
      && IndexOf(s, ' ') == |name| && |name| + 4 <= |s|
      && s[..|name|] == name && s[|name|..|name| + 4] == " = $" && s[|name| + 4..] == Decimal(k)
  {
    var s := name + " = $" + Decimal(k);
    assert s == name + [' '] + ("= $" + Decimal(k));
    IndexOfAfterPrefix(name, ' ', "= $" + Decimal(k));
  }

  /** A clause reads back as the column and placeholder number it was written with. */
  lemma ClauseRoundTrip(c: Column, k: nat)
    ensures ParseClause(Clause(c, k)) == Some((c, k))
  {
    ColumnNames(c);
    ClausePieces(Name(c), k);
    DecimalRoundTrip(k);
  }

  /** A clause has no comma, so the `", "` that joins clauses cannot be mistaken for part of one. */
  lemma ClauseCommaFree(c: Column, k: nat)
    ensures ',' !in Clause(c, k)
  {
    ColumnNames(c);
    var d := Decimal(k);
    assert forall j :: 0 <= j < |d| ==> d[j] != ',';
    assert Clause(c, k) == Name(c) + " = $" + d;
  }

  /** The k-th SET clause (from 0) names the k-th assignment's column with
      placeholder `$(k+1)`, and the parameter list binds that placeholder to
      the assignment's value; the WHERE placeholder is the number of
      parameters, and the last parameter is the complaint id. Placeholders
      are thus 1, 2, ..., n+1 with no gap and no repeat. */
  lemma PlaceholdersBindValues(a: seq<Assignment>, id: string)
    ensures |Values(a) + [id]| == |SetClauses(a)| + 1
    ensures forall k :: 0 <= k < |a| ==>
      SetClauses(a)[k] == Clause(a[k].column, k + 1) && (Values(a) + [id])[k] == a[k].value
    ensures ParseNat(Decimal(|a| + 1)) == Some(|Values(a) + [id]|) && (Values(a) + [id])[|a|] == id
  {
    forall k | 0 <= k < |a|
      ensures SetClauses(a)[k] == Clause(a[k].column, k + 1) && (Values(a) + [id])[k] == a[k].value
    {
      SetClausesAt(a, k);
      ValuesAt(a, k);
    }
    DecimalRoundTrip(|a| + 1);
  }

  /** The k-th SET clause reads back as the k-th assignment's column with placeholder `$(k+1)`. */
  lemma ClauseAt(a: seq<Assignment>, k: nat)
    requires k < |a|
    ensures ParseClause(SetClauses(a)[k]) == Some((a[k].column, k + 1))
  {
    SetClausesAt(a, k);
    ClauseRoundTrip(a[k].column, k + 1);
  }

  /** The SET list of a non-empty update is exactly its clauses joined by
      `", "`: splitting it recovers the clauses, and they read back as the
      assignments' columns numbered from 1. */
  lemma SetListDecodes(a: seq<Assignment>)
    requires a != []
    ensures SplitList(SetList(a)) == SetClauses(a)
    ensures forall k :: 0 <= k < |a| ==> ParseClause(SplitList(SetList(a))[k]) == Some((a[k].column, k + 1))
  {
    forall k | 0 <= k < |a|
      ensures ',' !in SetClauses(a)[k]
    {
      SetClausesAt(a, k);
      ClauseCommaFree(a[k].column, k + 1);
    }
    SplitJoinRoundTrip(SetClauses(a));
    forall k | 0 <= k < |a|
      ensures ParseClause(SplitList(SetList(a))[k]) == Some((a[k].column, k + 1))
    {
      ClauseAt(a, k);
    }
  }

  /** No field the request leaves out (absent or empty) is named anywhere in
      the statement's SET list. */
  lemma UntouchedFieldNeverNamed(body: UpdateBody, filePath: Option<string>, j: nat)
    requires j < |Candidates(body, filePath)|
    requires !Truthy(Candidates(body, filePath)[j].value)
    requires Included(Candidates(body, filePath)) != []
    ensures var parts := SplitList(SetList(Included(Candidates(body, filePath))));
      forall k :: 0 <= k < |parts| ==>
        ParseClause(parts[k]).Some? && ParseClause(parts[k]).value.0 != Candidates(body, filePath)[j].column
  {
    var cs := Candidates(body, filePath);
    var a := Included(cs);
    SetListDecodes(a);
    SetIffTruthy(body, filePath);
    forall k | 0 <= k < |a|
      ensures a[k].column != cs[j].column
    {
      ColumnsAt(a, k);
    }
  }
}
