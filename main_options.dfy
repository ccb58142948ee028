/**
 * MainOptions.getSpecPaths: every -s value is split on commas, each piece is
 * trimmed, empty pieces are dropped, and each remaining piece must be a valid
 * URI; the entries keep the order of the values and of the pieces within
 * each value. URI syntax is not part of this model: validity is a parameter.
 */
module MainOptions {
  import opened Wrappers
  import opened JavaStrings
  import opened Sequences

  /** The trimmed pieces that are not empty, in order. */
  function KeepNonEmptyTrimmed(pieces: seq<string>): (r: seq<string>)
    ensures |r| <= |pieces|
    decreases |pieces|
  {
    if pieces == [] then []
    else
      var n := |pieces| - 1;
      var trimmed := Trim(pieces[n]);
      KeepNonEmptyTrimmed(pieces[..n]) + (if trimmed == [] then [] else [trimmed])
  }

  /** The entries one -s value contributes. */
  function Entries(value: string): (r: seq<string>)
    ensures |r| <= CountChar(value, ',') + 1
  {
    JavaSplitPieces(value, ',');
    KeepNonEmptyTrimmed(JavaSplit(value, ','))
  }

  /** The entries of all values, value after value. */
  function AllEntries(values: seq<string>): seq<string>
    decreases |values|
  {
    if values == [] then [] else AllEntries(values[..|values| - 1]) + Entries(values[|values| - 1])
  }

  /** The position of the first entry, from position i on, that is not a valid URI. */
  function FirstInvalidFrom(entries: seq<string>, validUri: string -> bool, i: nat): (r: Option<nat>)
    requires i <= |entries|
    ensures r.Some? ==> i <= r.value < |entries| && !validUri(entries[r.value])
    ensures r.Some? ==> forall j :: i <= j < r.value ==> validUri(entries[j])
    ensures r.None? ==> forall j :: i <= j < |entries| ==> validUri(entries[j])
    decreases |entries| - i
  {
    if i == |entries| then None
    else if !validUri(entries[i]) then Some(i)
    else FirstInvalidFrom(entries, validUri, i + 1)
  }

  /** IllegalArgumentException("Invalid URI: " + piece). */
  datatype OptionsError = InvalidUri(text: string)

  /** What getSpecPaths returns: every entry, or the error for the first entry that is not a URI. */
  function SpecPaths(values: seq<string>, validUri: string -> bool): (r: Result<seq<string>, OptionsError>)
    ensures r.Success? ==> r.value == AllEntries(values)
    ensures r.Failure? ==> r.error.text in AllEntries(values) && !validUri(r.error.text)
  {
    var entries := AllEntries(values);
    match FirstInvalidFrom(entries, validUri, 0)
    case None => Success(entries)
    case Some(k) => Failure(InvalidUri(entries[k]))
  }

  /** Entries appended after a valid prefix: all of them, or the error for the first that is not a URI. */
  function AppendChecked(result: seq<string>, entries: seq<string>, validUri: string -> bool): Result<seq<string>, OptionsError> {
    match FirstInvalidFrom(entries, validUri, 0)
    case None => Success(result + entries)
    case Some(k) => Failure(InvalidUri(entries[k]))
  }

  /** getSpecPaths: the loop over the -s values, in order. */
  method GetSpecPaths(specPathStrings: seq<string>, validUri: string -> bool) returns (r: Result<seq<string>, OptionsError>)
    ensures r == SpecPaths(specPathStrings, validUri)
  {
    var result: seq<string> := [];
    for v := 0 to |specPathStrings|
      invariant result == AllEntries(specPathStrings[..v])
      invariant FirstInvalidFrom(result, validUri, 0).None?
    {
      var appended := AppendEntries(result, specPathStrings[v], validUri);
      ValueStep(specPathStrings, v, validUri);
      if appended.Failure? {
        return appended;
      }
      result := appended.value;
    }
    WholePrefix(specPathStrings);
    return Success(result);
  }

  /**
   * One value of the outer loop: after the entries of the values before it,
   * all valid, either its entries fail (and so does the whole) or they are
   * appended and all valid.
   */
  lemma ValueStep(values: seq<string>, v: nat, validUri: string -> bool)
    requires v < |values|
    requires FirstInvalidFrom(AllEntries(values[..v]), validUri, 0).None?
    ensures var appended := AppendChecked(AllEntries(values[..v]), Entries(values[v]), validUri);
      && (appended.Failure? ==> appended == SpecPaths(values, validUri))
      && (appended.Success? ==> appended.value == AllEntries(values[..v + 1]))
      && (appended.Success? ==> FirstInvalidFrom(appended.value, validUri, 0).None?)
  {
    var front := AllEntries(values[..v]);
    var e := Entries(values[v]);
    FirstInvalidConcat(front, e, validUri);
    if FirstInvalidFrom(e, validUri, 0).Some? {
      ValueFails(values, v, validUri);
    } else {
      PrefixStep(values, v);
      AllEntriesSnoc(values[..v + 1]);
    }
  }

  /** A value with an entry that is not a URI makes the whole list fail on that entry. */
  lemma ValueFails(values: seq<string>, v: nat, validUri: string -> bool)
    requires v < |values|
    requires FirstInvalidFrom(AllEntries(values[..v]), validUri, 0).None?
    requires FirstInvalidFrom(Entries(values[v]), validUri, 0).Some?
    ensures var e := Entries(values[v]);
      SpecPaths(values, validUri) == Failure(InvalidUri(e[FirstInvalidFrom(e, validUri, 0).value]))
  {
    var front := AllEntries(values[..v]);
    var e := Entries(values[v]);
    var rest := AllEntries(values[v + 1..]);
    AllEntriesAround(values, v);
    ConcatAssoc(front, e, rest);
    FirstInvalidPrefix(e, rest, validUri);
    FirstInvalidConcat(front, e + rest, validUri);
  }

  /** The inner loop of getSpecPaths: split one value on commas, trim each piece, skip empty ones, check the rest. */
  method AppendEntries(result: seq<string>, value: string, validUri: string -> bool) returns (r: Result<seq<string>, OptionsError>)
    ensures r == AppendChecked(result, Entries(value), validUri)
  {
    var paths := JavaSplit(value, ',');
    var acc := result;
    for j := 0 to |paths|
      invariant acc == result + KeepNonEmptyTrimmed(paths[..j])
      invariant FirstInvalidFrom(KeepNonEmptyTrimmed(paths[..j]), validUri, 0).None?
    {
      PieceStep(result, paths, j, validUri);
      var trimmed := Trim(paths[j]);
      if trimmed != [] {
        if !validUri(trimmed) {
          return Failure(InvalidUri(trimmed));
        }
        ConcatAssoc(result, KeepNonEmptyTrimmed(paths[..j]), [trimmed]);
        acc := acc + [trimmed];
      }
    }
    WholePrefix(paths);
    return Success(acc);
  }

  /**
   * One piece of the inner loop: after kept pieces that are all valid, an
   * empty trimmed piece is skipped, an invalid one decides the outcome, and a
   * valid one is appended.
   */
  lemma PieceStep(result: seq<string>, paths: seq<string>, j: nat, validUri: string -> bool)
    requires j < |paths|
    requires FirstInvalidFrom(KeepNonEmptyTrimmed(paths[..j]), validUri, 0).None?
    ensures var trimmed := Trim(paths[j]);
      && (trimmed == [] ==> KeepNonEmptyTrimmed(paths[..j + 1]) == KeepNonEmptyTrimmed(paths[..j]))
      && (trimmed != [] && !validUri(trimmed) ==>
            AppendChecked(result, KeepNonEmptyTrimmed(paths), validUri) == Failure(InvalidUri(trimmed)))
      && (trimmed != [] && validUri(trimmed) ==>
            KeepNonEmptyTrimmed(paths[..j + 1]) == KeepNonEmptyTrimmed(paths[..j]) + [trimmed])
      && (trimmed == [] || validUri(trimmed) ==> FirstInvalidFrom(KeepNonEmptyTrimmed(paths[..j + 1]), validUri, 0).None?)
  {
    var trimmed := Trim(paths[j]);
    var kept := KeepNonEmptyTrimmed(paths[..j]);
    PrefixStep(paths, j);
    KeepSnoc(paths[..j + 1]);
    KeepSingle(paths[j]);
    if trimmed == [] {
      AppendEmpty(kept);
    } else {
      FirstInvalidConcat(kept, [trimmed], validUri);
      if !validUri(trimmed) {
        KeepAround(paths, j);
        FirstInvalidConcat(kept, [trimmed] + KeepNonEmptyTrimmed(paths[j + 1..]), validUri);
        ConcatAssoc(kept, [trimmed], KeepNonEmptyTrimmed(paths[j + 1..]));
      }
    }
  }

  /** After entries that are all URIs, the first invalid entry is the first invalid entry of the rest. */
  lemma FirstInvalidConcat(a: seq<string>, b: seq<string>, validUri: string -> bool)
    requires FirstInvalidFrom(a, validUri, 0).None?
    ensures FirstInvalidFrom(a + b, validUri, 0) ==
      match FirstInvalidFrom(b, validUri, 0)
      case None => None
      case Some(m) => Some(|a| + m)
    ensures FirstInvalidFrom(b, validUri, 0).Some? ==>
      (a + b)[FirstInvalidFrom(a + b, validUri, 0).value] == b[FirstInvalidFrom(b, validUri, 0).value]
  {
    var ab := a + b;
    match FirstInvalidFrom(b, validUri, 0)
    case None =>
      forall k | 0 <= k < |ab| ensures validUri(ab[k]) {
        if k >= |a| { assert ab[k] == b[k - |a|]; }
      }
    case Some(m) =>
      assert ab[|a| + m] == b[m];
      forall k | 0 <= k < |a| + m ensures validUri(ab[k]) {
        if k >= |a| { assert ab[k] == b[k - |a|]; }
      }
      FirstInvalidIs(ab, |a| + m, validUri);
  }

  /** An invalid entry preceded only by valid ones is the first invalid entry. */
  lemma FirstInvalidIs(entries: seq<string>, i: nat, validUri: string -> bool)
    requires i < |entries| && !validUri(entries[i])
    requires forall j :: 0 <= j < i ==> validUri(entries[j])
    ensures FirstInvalidFrom(entries, validUri, 0) == Some(i)
  {
  }

  /** The first invalid entry of a is also the first invalid entry of a + b. */
  lemma FirstInvalidPrefix(a: seq<string>, b: seq<string>, validUri: string -> bool)
    requires FirstInvalidFrom(a, validUri, 0).Some?
    ensures FirstInvalidFrom(a + b, validUri, 0) == FirstInvalidFrom(a, validUri, 0)
    ensures (a + b)[FirstInvalidFrom(a, validUri, 0).value] == a[FirstInvalidFrom(a, validUri, 0).value]
  {
    var m := FirstInvalidFrom(a, validUri, 0).value;
    var ab := a + b;
    assert ab[m] == a[m];
    forall k | 0 <= k < m ensures validUri(ab[k]) {
      assert ab[k] == a[k];
    }
    FirstInvalidIs(ab, m, validUri);
  }

  /** The last step of KeepNonEmptyTrimmed. */
  lemma KeepSnoc(pieces: seq<string>)
    requires pieces != []
    ensures KeepNonEmptyTrimmed(pieces) ==
      KeepNonEmptyTrimmed(pieces[..|pieces| - 1]) + KeepNonEmptyTrimmed([pieces[|pieces| - 1]])
  {
    KeepSingle(pieces[|pieces| - 1]);
  }

  /** A single piece is kept trimmed unless it trims to nothing. */
  lemma KeepSingle(piece: string)
    ensures KeepNonEmptyTrimmed([piece]) == if Trim(piece) == [] then [] else [Trim(piece)]
  {
    assert [piece][..0] == [];
  }

  /** The last step of AllEntries. */
  lemma AllEntriesSnoc(values: seq<string>)
    requires values != []
    ensures AllEntries(values) == AllEntries(values[..|values| - 1]) + Entries(values[|values| - 1])
  {
  }

  /** Keeping trimmed pieces distributes over concatenation. */
  lemma {:induction false} KeepAppend(a: seq<string>, b: seq<string>)
    ensures KeepNonEmptyTrimmed(a + b) == KeepNonEmptyTrimmed(a) + KeepNonEmptyTrimmed(b)
    decreases |b|
  {
    if b == [] {
      AppendEmpty(a);
      AppendEmpty(KeepNonEmptyTrimmed(a));
    } else {
      var n := |b| - 1;
      SnocSplit(a, b);
      var last := if Trim(b[n]) == [] then [] else [Trim(b[n])];
      KeepAppend(a, b[..n]);
      ConcatAssoc(KeepNonEmptyTrimmed(a), KeepNonEmptyTrimmed(b[..n]), last);
    }
  }

  /**
   * The entries of the values are the entries of each value in turn: the
   * order of the values and of the pieces within each is kept.
   */
  lemma {:induction false} AllEntriesAppend(a: seq<string>, b: seq<string>)
    ensures AllEntries(a + b) == AllEntries(a) + AllEntries(b)
    decreases |b|
  {
    if b == [] {
      AppendEmpty(a);
      AppendEmpty(AllEntries(a));
    } else {
      var n := |b| - 1;
      SnocSplit(a, b);
      AllEntriesAppend(a, b[..n]);
      ConcatAssoc(AllEntries(a), AllEntries(b[..n]), Entries(b[n]));
    }
  }

  /** The pieces of a list split around position j. */
  lemma KeepAround(pieces: seq<string>, j: nat)
    requires j < |pieces|
    ensures KeepNonEmptyTrimmed(pieces) ==
      KeepNonEmptyTrimmed(pieces[..j]) + KeepNonEmptyTrimmed([pieces[j]]) + KeepNonEmptyTrimmed(pieces[j + 1..])
  {
    SplitAround(pieces, j);
    KeepAppend(pieces[..j] + [pieces[j]], pieces[j + 1..]);
    KeepAppend(pieces[..j], [pieces[j]]);
  }

  /** The entries of a list of values split around position v. */
  lemma AllEntriesAround(values: seq<string>, v: nat)
    requires v < |values|
    ensures AllEntries(values) == AllEntries(values[..v]) + Entries(values[v]) + AllEntries(values[v + 1..])
  {
    SplitAround(values, v);
    AllEntriesAppend(values[..v] + [values[v]], values[v + 1..]);
    AllEntriesAppend(values[..v], [values[v]]);
    assert [values[v]][..0] == [];
  }

  /** An entry as getSpecPaths hands it on: not empty, without a comma, with nothing left for trim to remove. */
  ghost predicate CleanEntry(e: string) {
    e != [] && ',' !in e && Trim(e) == e
  }

  ghost predicate AllClean(entries: seq<string>) {
    forall k :: 0 <= k < |entries| ==> CleanEntry(entries[k])
  }

  /** No entry is empty, contains a comma, or has whitespace that trim removes at either end. */
  lemma {:induction false} EntriesAreTrimmedPieces(values: seq<string>)
    ensures AllClean(AllEntries(values))
    decreases |values|
  {
    if values != [] {
      var n := |values| - 1;
      EntriesAreTrimmedPieces(values[..n]);
      EntriesOfOneValueAreClean(values[n]);
      CleanConcat(AllEntries(values[..n]), Entries(values[n]));
    }
  }

  lemma EntriesOfOneValueAreClean(value: string)
    ensures AllClean(Entries(value))
  {
    var pieces := JavaSplit(value, ',');
    var entries := Entries(value);
    forall k | 0 <= k < |entries| ensures CleanEntry(entries[k]) {
      KeepFromPieces(pieces, k);
      var i :| 0 <= i < |pieces| && entries[k] == Trim(pieces[i]) && Trim(pieces[i]) != [];
      JavaSplitPieces(value, ',');
      TrimKeepsNoComma(pieces[i]);
      TrimIdempotent(pieces[i]);
    }
  }

  lemma TrimKeepsNoComma(piece: string)
    requires ',' !in piece
    ensures ',' !in Trim(piece)
  {
    var r, i := Trim(piece), SkipTrimmable(piece, 0);
    TrimRemovesOnlyTrimmable(piece);
    forall k | 0 <= k < |r| ensures r[k] != ',' {
      assert r[k] == piece[i + k];
    }
  }

  lemma CleanConcat(a: seq<string>, b: seq<string>)
    requires AllClean(a) && AllClean(b)
    ensures AllClean(a + b)
  {
    forall k | 0 <= k < |a + b| ensures CleanEntry((a + b)[k]) {
      if k >= |a| {
        assert (a + b)[k] == b[k - |a|];
      } else {
        assert (a + b)[k] == a[k];
      }
    }
  }

  /** Every kept entry is the trim of one of the pieces, and not empty. */
  lemma {:induction false} KeepFromPieces(pieces: seq<string>, k: nat)
    requires k < |KeepNonEmptyTrimmed(pieces)|
    ensures exists i :: 0 <= i < |pieces| && KeepNonEmptyTrimmed(pieces)[k] == Trim(pieces[i]) && Trim(pieces[i]) != []
    decreases |pieces|
  {
    var n := |pieces| - 1;
    var front := KeepNonEmptyTrimmed(pieces[..n]);
    if k < |front| {
      KeepFromPieces(pieces[..n], k);
      var i :| 0 <= i < n && front[k] == Trim(pieces[..n][i]) && Trim(pieces[..n][i]) != [];
      assert pieces[..n][i] == pieces[i];
    } else {
      assert KeepNonEmptyTrimmed(pieces)[k] == Trim(pieces[n]);
    }
  }

  /** A value without a comma contributes at most its own trimmed text. */
  lemma NoCommaGivesTrimmedValue(value: string)
    requires ',' !in value
    ensures Entries(value) == if Trim(value) == [] then [] else [Trim(value)]
  {
    JavaSplitPieces(value, ',');
    KeepSingle(value);
  }

  /** A value made only of commas and whitespace contributes nothing. */
  lemma OnlyCommasAndWhitespaceGiveNothing(value: string)
    requires forall k :: 0 <= k < |value| ==> value[k] == ',' || IsTrimmable(value[k])
    ensures Entries(value) == []
  {
    var pieces := JavaSplit(value, ',');
    forall i | 0 <= i < |pieces| ensures Trim(pieces[i]) == [] {
      JavaSplitPieces(value, ',');
      forall k | 0 <= k < |pieces[i]| ensures IsTrimmable(pieces[i][k]) {
        assert pieces[i][k] in value;
        var m :| 0 <= m < |value| && value[m] == pieces[i][k];
      }
      TrimRemovesOnlyTrimmable(pieces[i]);
    }
    NothingKept(pieces);
  }

  lemma {:induction false} NothingKept(pieces: seq<string>)
    requires forall i :: 0 <= i < |pieces| ==> Trim(pieces[i]) == []
    ensures KeepNonEmptyTrimmed(pieces) == []
    decreases |pieces|
  {
    if pieces != [] {
      NothingKept(pieces[..|pieces| - 1]);
    }
  }

  /** One entry at most per comma-separated piece: commas plus one, summed over the values. */
  function PieceBound(values: seq<string>): nat
    decreases |values|
  {
    if values == [] then 0 else PieceBound(values[..|values| - 1]) + CountChar(values[|values| - 1], ',') + 1
  }

  /** The number of entries is at most the number of comma-separated pieces. */
  lemma {:induction false} EntryCountBounded(values: seq<string>)
    ensures |AllEntries(values)| <= PieceBound(values)
    decreases |values|
  {
    if values != [] {
      EntryCountBounded(values[..|values| - 1]);
      JavaSplitPieces(values[|values| - 1], ',');
    }
  }

  /** getSpecPaths fails exactly when some entry is not a URI, naming the first such entry; otherwise it returns every entry. */
  lemma SpecPathsFailsOnInvalidEntry(values: seq<string>, validUri: string -> bool)
    ensures SpecPaths(values, validUri).Success? <==>
      forall k :: 0 <= k < |AllEntries(values)| ==> validUri(AllEntries(values)[k])
    ensures SpecPaths(values, validUri).Success? ==> SpecPaths(values, validUri).value == AllEntries(values)
    ensures SpecPaths(values, validUri).Failure? ==>
      var k := FirstInvalidFrom(AllEntries(values), validUri, 0).value;
      && AllEntries(values)[k] == SpecPaths(values, validUri).error.text
      && !validUri(AllEntries(values)[k])
      && forall j :: 0 <= j < k ==> validUri(AllEntries(values)[j])
  {
  }
}
