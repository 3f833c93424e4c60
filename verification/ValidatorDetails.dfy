/**
 The two validator tables whose writer reads the row, merges the new data into it and writes
 the result back under the height guard: commission and description. The results say what
 each column holds after a run of saves in height order, and exactly what one late save loses.
 */
module ValidatorDetails {
  import opened Wrappers
  import opened GuardedTables
  import opened Text

  // ---- Commission -----------------------------------------------------------------------

  /** A nil pointer in the source is None here. */
  datatype CommissionData = CommissionData(operator: string, commission: Option<real>, minSelfDelegation: Option<int>,
                                           height: int)

  datatype CommissionRow = CommissionRow(commission: real, minSelfDelegation: int)

  datatype Outcome = Saved | Nothing | UnknownValidator | StatementError | TooLong

  predicate FitsBigint(x: int) { -0x8000_0000_0000_0000 <= x < 0x8000_0000_0000_0000 }

  function Or<T>(new_: Option<T>, old_: Option<T>): Option<T> {
    if new_.Some? then new_ else old_
  }

  /** What the statement would write: the supplied values over those of the row, if any. */
  function Merged(row: Option<Row<CommissionRow>>, d: CommissionData): (Option<real>, Option<int>) {
    match row
    case None => (d.commission, d.minSelfDelegation)
    case Some(r) =>
      (Or(d.commission, Some(r.value.commission)), Or(d.minSelfDelegation, Some(r.value.minSelfDelegation)))
  }

  function Lookup<K, V>(m: map<K, V>, k: K): Option<V> {
    if k in m then Some(m[k]) else None
  }

  type Commissions = map<string, Row<CommissionRow>>

  /** The outcome of a save for the validator stored under consAddr. */
  function CommissionOutcome(t: Commissions, consAddr: Option<string>, d: CommissionData): Outcome {
    if d.commission.None? && d.minSelfDelegation.None? then Nothing
    else if consAddr.None? then UnknownValidator
    else
      var (c, m) := Merged(Lookup(t, consAddr.value), d);
      // both columns are NOT NULL numbers: an empty text or a too large integer is refused
      if c.None? || m.None? || !FitsBigint(m.value) then StatementError else Saved
  }

  function SaveCommission(t: Commissions, consAddr: Option<string>, d: CommissionData): Commissions {
    if CommissionOutcome(t, consAddr, d) != Saved then t
    else
      var (c, m) := Merged(Lookup(t, consAddr.value), d);
      Upsert(t, Write(consAddr.value, d.height, CommissionRow(c.value, m.value)))
  }

  // ---- Description ----------------------------------------------------------------------

  datatype Field = Moniker | Identity | Website | SecurityContact | Details | Avatar

  /** The five description texts and the avatar URL, by column. */
  type Texts = Field -> string

  datatype DescriptionData = DescriptionData(operator: string, texts: Texts, height: int)

  const DO_NOT_MODIFY := "[do-not-modify]"

  /** Limits of Description.EnsureLength, in bytes; the avatar is not limited. */
  function MaxLength(f: Field): Option<nat> {
    match f
    case Moniker => Some(70)
    case Identity => Some(3000)
    case Website => Some(140)
    case SecurityContact => Some(140)
    case Details => Some(280)
    case Avatar => None
  }

  predicate LengthOk(f: Field, s: string) {
    MaxLength(f).Some? ==> ByteLength(s) <= MaxLength(f).value
  }

  predicate EnsureLength(texts: Texts) {
    forall f: Field {:trigger LengthOk(f, texts(f))} :: LengthOk(f, texts(f))
  }

  type Descriptions = map<string, Row<Texts>>

  /** UpdateDescription and the avatar rule: the sentinel keeps the text of the row. */
  function Updated(row: Option<Row<Texts>>, texts: Texts): Texts {
    match row
    case None => texts
    case Some(r) => f => if texts(f) == DO_NOT_MODIFY then r.value(f) else texts(f)
  }

  function DescriptionOutcome(t: Descriptions, consAddr: Option<string>, d: DescriptionData): Outcome {
    if consAddr.None? then UnknownValidator
    else if !EnsureLength(d.texts) then TooLong
    else if !EnsureLength(Updated(Lookup(t, consAddr.value), d.texts)) then TooLong
    else Saved
  }

  /** Texts are trimmed on the way in; an empty one is stored as NULL and read back empty. */
  function Trimmed(texts: Texts): Texts {
    f => TrimSpace(texts(f))
  }

  function SaveDescription(t: Descriptions, consAddr: Option<string>, d: DescriptionData): Descriptions {
    if DescriptionOutcome(t, consAddr, d) != Saved then t
    else Upsert(t, Write(consAddr.value, d.height, Trimmed(Updated(Lookup(t, consAddr.value), d.texts))))
  }

  // ---- The database methods -------------------------------------------------------------

  class ValidatorDb {
    var consAddrs: map<string, string>    // validator_info: operator address to consensus address
    var commissions: Commissions
    var descriptions: Descriptions

    constructor (infos: map<string, string>)
      ensures consAddrs == infos && commissions == map[] && descriptions == map[]
    {
      consAddrs, commissions, descriptions := infos, map[], map[];
    }

    method SaveValidatorCommission(data: CommissionData) returns (r: Outcome)
      modifies this`commissions
      ensures r == CommissionOutcome(old(commissions), Lookup(consAddrs, data.operator), data)
      ensures commissions == SaveCommission(old(commissions), Lookup(consAddrs, data.operator), data)
    {
      if data.minSelfDelegation.None? && data.commission.None? {
        return Nothing;
      }
      if data.operator !in consAddrs {
        return UnknownValidator;
      }
      var consAddr := consAddrs[data.operator];
      var commission: Option<real>, minSelfDelegation: Option<int> := None, None;
      if consAddr in commissions {
        commission := Some(commissions[consAddr].value.commission);
        minSelfDelegation := Some(commissions[consAddr].value.minSelfDelegation);
      }
      if data.commission.Some? {
        commission := data.commission;
      }
      if data.minSelfDelegation.Some? {
        minSelfDelegation := data.minSelfDelegation;
      }
      if commission.None? || minSelfDelegation.None? || !FitsBigint(minSelfDelegation.value) {
        return StatementError;
      }
      if consAddr !in commissions || commissions[consAddr].height <= data.height {
        var row := CommissionRow(commission.value, minSelfDelegation.value);
        commissions := commissions[consAddr := Row(row, data.height)];
      }
      return Saved;
    }

    method SaveValidatorDescription(data: DescriptionData) returns (r: Outcome)
      modifies this`descriptions
      ensures r == DescriptionOutcome(old(descriptions), Lookup(consAddrs, data.operator), data)
      ensures descriptions == SaveDescription(old(descriptions), Lookup(consAddrs, data.operator), data)
    {
      if data.operator !in consAddrs {
        return UnknownValidator;
      }
      var consAddr := consAddrs[data.operator];
      if !EnsureLength(data.texts) {
        return TooLong;
      }
      var des := data.texts;
      if consAddr in descriptions {
        des := Updated(Some(descriptions[consAddr]), data.texts);
        if !EnsureLength(des) {
          return TooLong;
        }
      }
      if consAddr !in descriptions || descriptions[consAddr].height <= data.height {
        descriptions := descriptions[consAddr := Row(Trimmed(des), data.height)];
      }
      return Saved;
    }
  }

  // ---- Runs of commission saves on one validator ----------------------------------------

  function CommissionRun(t: Commissions, k: string, ds: seq<CommissionData>): Commissions {
    if ds == [] then t
    else SaveCommission(CommissionRun(t, k, ds[..|ds| - 1]), Some(k), ds[|ds| - 1])
  }

  /** No save of the run is refused by the database. */
  predicate AllAccepted(t: Commissions, k: string, ds: seq<CommissionData>) {
    ds == [] || (AllAccepted(t, k, ds[..|ds| - 1])
                 && CommissionOutcome(CommissionRun(t, k, ds[..|ds| - 1]), Some(k), ds[|ds| - 1]) in {Saved, Nothing})
  }

  predicate Fits(d: CommissionData) {
    d.minSelfDelegation.Some? ==> FitsBigint(d.minSelfDelegation.value)
  }

  /** A save that can change a row that is there, and one that can create a row. */
  predicate Supplies(d: CommissionData) {
    Fits(d) && (d.commission.Some? || d.minSelfDelegation.Some?)
  }

  predicate Complete(d: CommissionData) {
    Fits(d) && d.commission.Some? && d.minSelfDelegation.Some?
  }

  predicate AnySupplies(ds: seq<CommissionData>) {
    ds != [] && (Supplies(ds[|ds| - 1]) || AnySupplies(ds[..|ds| - 1]))
  }

  predicate AnyComplete(ds: seq<CommissionData>) {
    ds != [] && (Complete(ds[|ds| - 1]) || AnyComplete(ds[..|ds| - 1]))
  }

  /** The last values supplied; a save whose delegation does not fit is refused as a whole. */
  function LastCommission(ds: seq<CommissionData>): Option<real> {
    if ds == [] then None
    else
      var before := LastCommission(ds[..|ds| - 1]);
      if Fits(ds[|ds| - 1]) then Or(ds[|ds| - 1].commission, before) else before
  }

  function LastMinSelfDelegation(ds: seq<CommissionData>): Option<int> {
    if ds == [] then None
    else
      var before := LastMinSelfDelegation(ds[..|ds| - 1]);
      if Fits(ds[|ds| - 1]) then Or(ds[|ds| - 1].minSelfDelegation, before) else before
  }

  /** The height of the last save that supplies anything. */
  function LastHeight(ds: seq<CommissionData>): int {
    if ds == [] then 0
    else if Supplies(ds[|ds| - 1]) then ds[|ds| - 1].height
    else LastHeight(ds[..|ds| - 1])
  }

  ghost predicate HeightsUp(ds: seq<CommissionData>, h: int) {
    && (forall i :: 0 <= i < |ds| ==> h <= ds[i].height)
    && (forall i, j :: 0 <= i < j < |ds| ==> ds[i].height <= ds[j].height)
  }

  /** In height order each column holds the last value supplied for it, else what it held. */
  lemma {:induction false} CommissionHoldsLastSupplied(t: Commissions, k: string, ds: seq<CommissionData>, h: int)
    requires HeightsUp(ds, h) && AllAccepted(t, k, ds)
    requires k in t ==> t[k].height <= h
    ensures CommissionRun(t, k, ds).Keys <= t.Keys + {k}
    ensures k !in CommissionRun(t, k, ds) ==> LastCommission(ds).None? && LastMinSelfDelegation(ds).None?
    ensures k in CommissionRun(t, k, ds) ==>
              var r := CommissionRun(t, k, ds)[k];
              && r.height <= (if ds == [] then h else ds[|ds| - 1].height)
              && Some(r.value.commission)
                == Or(LastCommission(ds), if k in t then Some(t[k].value.commission) else None)
              && Some(r.value.minSelfDelegation)
                 == Or(LastMinSelfDelegation(ds), if k in t then Some(t[k].value.minSelfDelegation) else None)
  {
    if ds != [] {
      CommissionHoldsLastSupplied(t, k, ds[..|ds| - 1], h);
    }
  }

  /** A save below the stored height changes nothing, whatever it supplies. */
  lemma OldCommissionIgnored(t: Commissions, k: string, d: CommissionData)
    requires k in t && d.height < t[k].height
    ensures SaveCommission(t, Some(k), d) == t
  {
  }

  lemma OldDescriptionIgnored(t: Descriptions, k: string, d: DescriptionData)
    requires k in t && d.height < t[k].height
    ensures SaveDescription(t, Some(k), d) == t
  {
  }

  /** The first row of a validator can only come from a save that supplies both columns. */
  lemma FirstSaveNeedsBoth(t: Commissions, k: string, d: CommissionData)
    requires k !in t && (d.commission.Some? || d.minSelfDelegation.Some?)
    ensures CommissionOutcome(t, Some(k), d) == Saved <==>
            && d.commission.Some? && d.minSelfDelegation.Some?
            && -9223372036854775808 <= d.minSelfDelegation.value <= 9223372036854775807
    ensures CommissionOutcome(t, Some(k), d) == Saved ==>
              SaveCommission(t, Some(k), d)
              == t[k := Row(CommissionRow(d.commission.value, d.minSelfDelegation.value), d.height)]
    ensures CommissionOutcome(t, Some(k), d) != Saved ==> SaveCommission(t, Some(k), d) == t
  {
  }

  /** A save on a row that is not newer replaces the columns it supplies, and keeps the others. */
  lemma CommissionOfSave(t: Commissions, k: string, d: CommissionData)
    requires k in t && t[k].height <= d.height && (d.commission.Some? || d.minSelfDelegation.Some?)
    requires -9223372036854775808 <= t[k].value.minSelfDelegation <= 9223372036854775807
    ensures CommissionOutcome(t, Some(k), d) == Saved
            <==> (d.minSelfDelegation.Some? ==>
                    -9223372036854775808 <= d.minSelfDelegation.value <= 9223372036854775807)
    ensures var u := SaveCommission(t, Some(k), d);
            if CommissionOutcome(t, Some(k), d) != Saved then u == t
            else
              && u == t[k := u[k]] && u[k].height == d.height
              && u[k].value.commission == (if d.commission.Some? then d.commission.value else t[k].value.commission)
              && u[k].value.minSelfDelegation
                 == (if d.minSelfDelegation.Some? then d.minSelfDelegation.value else t[k].value.minSelfDelegation)
  {
  }

  /** Nothing is written for an operator without a validator row, or when nothing is supplied. */
  lemma CommissionNotSaved(t: Commissions, consAddr: Option<string>, d: CommissionData)
    ensures CommissionOutcome(t, consAddr, d) == Nothing <==> d.commission.None? && d.minSelfDelegation.None?
    ensures CommissionOutcome(t, consAddr, d) == UnknownValidator
            <==> consAddr.None? && (d.commission.Some? || d.minSelfDelegation.Some?)
    ensures consAddr.None? ==> SaveCommission(t, consAddr, d) == t
  {
  }

  /** The last values supplied are those of one save, after which none supplies that column. */
  lemma {:induction false} LastCommissionIs(ds: seq<CommissionData>) returns (i: int)
    ensures -1 <= i < |ds|
    ensures if i < 0 then LastCommission(ds).None?
            else Fits(ds[i]) && ds[i].commission.Some? && LastCommission(ds) == ds[i].commission
    ensures forall j :: i < j < |ds| ==> !Fits(ds[j]) || ds[j].commission.None?
  {
    if ds == [] {
      i := -1;
    } else {
      var n := |ds| - 1;
      i := LastCommissionIs(ds[..n]);
      if Fits(ds[n]) && ds[n].commission.Some? {
        i := n;
      }
    }
  }

  lemma {:induction false} LastMinSelfDelegationIs(ds: seq<CommissionData>) returns (i: int)
    ensures -1 <= i < |ds|
    ensures if i < 0 then LastMinSelfDelegation(ds).None?
            else Fits(ds[i]) && ds[i].minSelfDelegation.Some? && LastMinSelfDelegation(ds) == ds[i].minSelfDelegation
    ensures forall j :: i < j < |ds| ==> !Fits(ds[j]) || ds[j].minSelfDelegation.None?
  {
    if ds == [] {
      i := -1;
    } else {
      var n := |ds| - 1;
      i := LastMinSelfDelegationIs(ds[..n]);
      if Fits(ds[n]) && ds[n].minSelfDelegation.Some? {
        i := n;
      }
    }
  }

  lemma {:induction false} LastHeightBounds(ds: seq<CommissionData>, h: int)
    requires HeightsUp(ds, h) && AnySupplies(ds)
    ensures h <= LastHeight(ds) <= ds[|ds| - 1].height
  {
    if !Supplies(ds[|ds| - 1]) {
      LastHeightBounds(ds[..|ds| - 1], h);
    }
  }

  /** Newer saves on a row that is there: each column takes the last value supplied. */
  lemma {:induction false} NewerSavesTakeOver(t: Commissions, k: string, ds: seq<CommissionData>, h: int)
    requires k in t && t[k].height <= h && FitsBigint(t[k].value.minSelfDelegation)
    requires HeightsUp(ds, h + 1)
    ensures var u := CommissionRun(t, k, ds);
            && k in u && u == t[k := u[k]] && FitsBigint(u[k].value.minSelfDelegation)
            && u[k].value.commission == Or(LastCommission(ds), Some(t[k].value.commission)).value
            && u[k].value.minSelfDelegation == Or(LastMinSelfDelegation(ds), Some(t[k].value.minSelfDelegation)).value
            && u[k].height == if AnySupplies(ds) then LastHeight(ds) else t[k].height
  {
    if ds != [] {
      var n := |ds| - 1;
      NewerSavesTakeOver(t, k, ds[..n], h);
      if AnySupplies(ds[..n]) {
        LastHeightBounds(ds[..n], h + 1);
      }
    }
  }

  /** The row that a run of saves from nothing leaves, once there is a complete one. */
  function RowFromNothing(ds: seq<CommissionData>): Option<Row<CommissionRow>> {
    if !AnyComplete(ds) || LastCommission(ds).None? || LastMinSelfDelegation(ds).None? then None
    else Some(Row(CommissionRow(LastCommission(ds).value, LastMinSelfDelegation(ds).value), LastHeight(ds)))
  }

  /** One more save, on the row that the saves before it have left. */
  lemma SaveOnRow(t: Commissions, k: string, ds: seq<CommissionData>)
    requires ds != [] && AnyComplete(ds[..|ds| - 1]) && RowFromNothing(ds[..|ds| - 1]).Some?
    requires LastHeight(ds[..|ds| - 1]) <= ds[|ds| - 1].height
    requires FitsBigint(LastMinSelfDelegation(ds[..|ds| - 1]).value)
    ensures RowFromNothing(ds).Some? && FitsBigint(LastMinSelfDelegation(ds).value)
    ensures SaveCommission(t[k := RowFromNothing(ds[..|ds| - 1]).value], Some(k), ds[|ds| - 1])
            == t[k := RowFromNothing(ds).value]
  {
  }

  /** From no row: the first complete save creates it, and then the last values count. */
  lemma {:induction false} SavesFromNothing(t: Commissions, k: string, ds: seq<CommissionData>, h: int)
    requires k !in t && HeightsUp(ds, h)
    ensures AnyComplete(ds) <==> RowFromNothing(ds).Some?
    ensures RowFromNothing(ds).Some? ==> FitsBigint(LastMinSelfDelegation(ds).value)
    ensures CommissionRun(t, k, ds) == if AnyComplete(ds) then t[k := RowFromNothing(ds).value] else t
  {
    if ds != [] {
      var n := |ds| - 1;
      SavesFromNothing(t, k, ds[..n], h);
      if AnyComplete(ds[..n]) {
        CompleteSupplies(ds[..n]);
        LastHeightBounds(ds[..n], h);
        SaveOnRow(t, k, ds);
      }
    }
  }

  lemma {:induction false} CompleteSupplies(ds: seq<CommissionData>)
    requires AnyComplete(ds)
    ensures AnySupplies(ds)
  {
    if !Complete(ds[|ds| - 1]) {
      CompleteSupplies(ds[..|ds| - 1]);
    }
  }

  lemma {:induction false} NothingSupplied(t: Commissions, k: string, ds: seq<CommissionData>)
    requires !AnySupplies(ds)
    ensures CommissionRun(t, k, ds) == t
  {
    if ds != [] {
      NothingSupplied(t, k, ds[..|ds| - 1]);
    }
  }

  /**
   A late save loses nothing: it or the newer ones change nothing at all; or there was a row,
   and every column it supplies was supplied again by a newer save or had that value already;
   or there was none, and the late save could not have created it or a newer one has.
   */
  predicate CommissionHarmless(t: Commissions, k: string, late: CommissionData, post: seq<CommissionData>) {
    || !Supplies(late)
    || !AnySupplies(post)
    || if k in t then
         && (late.commission.None? || LastCommission(post).Some? || late.commission.value == t[k].value.commission)
         && (late.minSelfDelegation.None? || LastMinSelfDelegation(post).Some?
             || late.minSelfDelegation.value == t[k].value.minSelfDelegation)
       else !Complete(late) || AnyComplete(post)
  }

  /** A late save, replayed after newer ones, gives the table of the height order exactly when it loses nothing. */
  lemma LateCommissionExact(t: Commissions, k: string, late: CommissionData, post: seq<CommissionData>)
    requires k in t ==> t[k].height <= late.height && FitsBigint(t[k].value.minSelfDelegation)
    requires HeightsUp(post, late.height + 1)
    ensures SaveCommission(CommissionRun(t, k, post), Some(k), late)
            == CommissionRun(SaveCommission(t, Some(k), late), k, post)
            <==> CommissionHarmless(t, k, late, post)
  {
    if !AnySupplies(post) {
      NothingSupplied(t, k, post);
      NothingSupplied(SaveCommission(t, Some(k), late), k, post);
    } else {
      LastHeightBounds(post, late.height + 1);
      if k in t {
        LateOnRow(t, k, late, post);
      } else {
        LateFromNothing(t, k, late, post);
      }
    }
  }

  /**
   A validator's first, complete save arrives late, after one that supplies only the commission:
   the newer one has been refused, so the older commission stays.
   */
  lemma LateFirstSaveKeepsOldCommission(k: string, late: CommissionData, newer: CommissionData)
    requires Complete(late) && newer.commission.Some? && newer.minSelfDelegation.None? && late.height < newer.height
    ensures var t := SaveCommission(SaveCommission(map[], Some(k), newer), Some(k), late);
            k in t && t[k] == Row(CommissionRow(late.commission.value, late.minSelfDelegation.value), late.height)
    ensures var t := SaveCommission(SaveCommission(map[], Some(k), late), Some(k), newer);
            k in t && t[k] == Row(CommissionRow(newer.commission.value, late.minSelfDelegation.value), newer.height)
  {
    FirstSaveNeedsBoth(map[], k, newer);
    FirstSaveNeedsBoth(map[], k, late);
  }

  lemma LateOnRow(t: Commissions, k: string, late: CommissionData, post: seq<CommissionData>)
    requires k in t && t[k].height <= late.height && FitsBigint(t[k].value.minSelfDelegation)
    requires HeightsUp(post, late.height + 1) && AnySupplies(post) && LastHeight(post) > late.height
    ensures SaveCommission(CommissionRun(t, k, post), Some(k), late)
            == CommissionRun(SaveCommission(t, Some(k), late), k, post)
            <==> CommissionHarmless(t, k, late, post)
  {
    var t' := SaveCommission(t, Some(k), late);
    NewerSavesTakeOver(t, k, post, late.height);
    NewerSavesTakeOver(t', k, post, late.height);
    OldCommissionIgnored(CommissionRun(t, k, post), k, late);
    var a, b := CommissionRun(t, k, post), CommissionRun(t', k, post);
    assert a == t[k := a[k]];
    assert b == t[k := b[k]];
    assert a == b <==> a[k] == b[k];
  }

  lemma LateFromNothing(t: Commissions, k: string, late: CommissionData, post: seq<CommissionData>)
    requires k !in t
    requires HeightsUp(post, late.height + 1) && AnySupplies(post) && LastHeight(post) > late.height
    ensures SaveCommission(CommissionRun(t, k, post), Some(k), late)
            == CommissionRun(SaveCommission(t, Some(k), late), k, post)
            <==> CommissionHarmless(t, k, late, post)
  {
    SavesFromNothing(t, k, post, late.height + 1);
    if AnyComplete(post) {
      OldCommissionIgnored(CommissionRun(t, k, post), k, late);
    }
    if Complete(late) {
      var t' := SaveCommission(t, Some(k), late);
      assert t' == t[k := Row(CommissionRow(late.commission.value, late.minSelfDelegation.value), late.height)];
      NewerSavesTakeOver(t', k, post, late.height);
    }
  }

  // ---- Runs of description saves on one validator ---------------------------------------

  function DescriptionRun(t: Descriptions, k: string, ds: seq<DescriptionData>): Descriptions {
    if ds == [] then t
    else SaveDescription(DescriptionRun(t, k, ds[..|ds| - 1]), Some(k), ds[|ds| - 1])
  }

  /** A save that passes the length limits; any other is refused as a whole. */
  predicate AnyReadable(ds: seq<DescriptionData>) {
    ds != [] && (EnsureLength(ds[|ds| - 1].texts) || AnyReadable(ds[..|ds| - 1]))
  }

  /** Some save that is not refused sends a text other than the sentinel. */
  predicate HasText(ds: seq<DescriptionData>, f: Field) {
    ds != [] && var d := ds[|ds| - 1];
                (EnsureLength(d.texts) && d.texts(f) != DO_NOT_MODIFY) || HasText(ds[..|ds| - 1], f)
  }

  /** The last text other than the sentinel, trimmed; the sentinel itself if there is none. */
  function LastText(ds: seq<DescriptionData>, f: Field): string {
    if ds == [] then DO_NOT_MODIFY
    else
      var d := ds[|ds| - 1];
      if !EnsureLength(d.texts) || d.texts(f) == DO_NOT_MODIFY then LastText(ds[..|ds| - 1], f)
        else TrimSpace(d.texts(f))
  }

  function LastReadHeight(ds: seq<DescriptionData>): int {
    if ds == [] then 0
    else if EnsureLength(ds[|ds| - 1].texts) then ds[|ds| - 1].height
    else LastReadHeight(ds[..|ds| - 1])
  }

  ghost predicate DescriptionsUp(ds: seq<DescriptionData>, h: int) {
    && (forall i :: 0 <= i < |ds| ==> h <= ds[i].height)
    && (forall i, j :: 0 <= i < j < |ds| ==> ds[i].height <= ds[j].height)
  }

  /** Stored texts respect the limits, so a later merge cannot be refused for its length. */
  lemma MergeNeverTooLong(t: Descriptions, k: string, d: DescriptionData)
    requires k in t ==> EnsureLength(t[k].value)
    requires EnsureLength(d.texts)
    ensures DescriptionOutcome(t, Some(k), d) == Saved
    ensures k in SaveDescription(t, Some(k), d) && EnsureLength(SaveDescription(t, Some(k), d)[k].value)
  {
    var merged := Updated(Lookup(t, k), d.texts);
    forall f: Field ensures LengthOk(f, merged(f)) && LengthOk(f, Trimmed(merged)(f)) {
      assert LengthOk(f, d.texts(f)) && (k in t ==> LengthOk(f, t[k].value(f)));
      TrimShortens(merged(f));
    }
  }

  lemma {:induction false} LastReadHeightBounds(ds: seq<DescriptionData>, h: int)
    requires DescriptionsUp(ds, h) && AnyReadable(ds)
    ensures h <= LastReadHeight(ds) <= ds[|ds| - 1].height
  {
    if !EnsureLength(ds[|ds| - 1].texts) {
      LastReadHeightBounds(ds[..|ds| - 1], h);
    }
  }

  /** A save of texts is refused for an operator without a validator row, or for one text beyond its limit. */
  lemma RefusedTexts(t: Descriptions, consAddr: Option<string>, d: DescriptionData)
    requires consAddr.Some? && consAddr.value in t ==> EnsureLength(t[consAddr.value].value)
    ensures DescriptionOutcome(t, consAddr, d) == UnknownValidator <==> consAddr.None?
    ensures consAddr.Some? ==>
              (DescriptionOutcome(t, consAddr, d) == Saved
              <==> && ByteLength(d.texts(Moniker)) <= 70 && ByteLength(d.texts(Identity)) <= 3000
                   && ByteLength(d.texts(Website)) <= 140 && ByteLength(d.texts(SecurityContact)) <= 140
                   && ByteLength(d.texts(Details)) <= 280)
    ensures DescriptionOutcome(t, consAddr, d) != Saved ==> SaveDescription(t, consAddr, d) == t
  {
    WithinLimits(d.texts);
    if consAddr.Some? && EnsureLength(d.texts) {
      MergeNeverTooLong(t, consAddr.value, d);
    }
  }

  lemma WithinLimits(texts: Texts)
    ensures EnsureLength(texts)
            <==> && ByteLength(texts(Moniker)) <= 70 && ByteLength(texts(Identity)) <= 3000
                 && ByteLength(texts(Website)) <= 140 && ByteLength(texts(SecurityContact)) <= 140
                 && ByteLength(texts(Details)) <= 280
  {
    if EnsureLength(texts) {
      assert LengthOk(Moniker, texts(Moniker)) && LengthOk(Identity, texts(Identity));
      assert LengthOk(Website, texts(Website)) && LengthOk(SecurityContact, texts(SecurityContact));
      assert LengthOk(Details, texts(Details));
    }
  }

  /** The last text is that of one save that is not refused, after which only the sentinel is sent. */
  lemma {:induction false} LastTextIs(ds: seq<DescriptionData>, f: Field) returns (i: int)
    ensures -1 <= i < |ds| && (HasText(ds, f) <==> i >= 0)
    ensures if i < 0 then LastText(ds, f) == "[do-not-modify]"
            else EnsureLength(ds[i].texts) && ds[i].texts(f) != "[do-not-modify]"
                 && LastText(ds, f) == TrimSpace(ds[i].texts(f))
    ensures forall j :: i < j < |ds| ==> !EnsureLength(ds[j].texts) || ds[j].texts(f) == "[do-not-modify]"
  {
    if ds == [] {
      i := -1;
    } else {
      var n := |ds| - 1;
      i := LastTextIs(ds[..n], f);
      if EnsureLength(ds[n].texts) && ds[n].texts(f) != DO_NOT_MODIFY {
        i := n;
      }
    }
  }

  /** What a save under the guard leaves in one column of a row. */
  lemma TextOfSave(t: Descriptions, k: string, d: DescriptionData, f: Field)
    requires k in t && t[k].height <= d.height && EnsureLength(t[k].value) && TrimSpace(t[k].value(f)) == t[k].value(f)
    requires EnsureLength(d.texts)
    ensures var u := SaveDescription(t, Some(k), d);
            && k in u && EnsureLength(u[k].value) && u[k].height == d.height
            && u[k].value(f) == (if d.texts(f) == "[do-not-modify]" then t[k].value(f) else TrimSpace(d.texts(f)))
            && TrimSpace(u[k].value(f)) == u[k].value(f)
  {
    MergeNeverTooLong(t, k, d);
    TrimIdempotent(d.texts(f));
  }

  /** What a first save leaves: its texts, the sentinel included. */
  lemma TextOfFirstSave(t: Descriptions, k: string, d: DescriptionData, f: Field)
    requires k !in t && EnsureLength(d.texts)
    ensures var u := SaveDescription(t, Some(k), d);
            && k in u && EnsureLength(u[k].value) && u[k].height == d.height
            && u[k].value(f) == TrimSpace(d.texts(f)) && TrimSpace(u[k].value(f)) == u[k].value(f)
  {
    MergeNeverTooLong(t, k, d);
    TrimIdempotent(d.texts(f));
  }

  /** Newer saves on a row that is there. */
  lemma {:induction false} NewerTextsTakeOver(t: Descriptions, k: string, ds: seq<DescriptionData>, h: int, f: Field)
    requires k in t && t[k].height <= h && EnsureLength(t[k].value) && TrimSpace(t[k].value(f)) == t[k].value(f)
    requires DescriptionsUp(ds, h + 1)
    ensures var u := DescriptionRun(t, k, ds);
            && k in u && EnsureLength(u[k].value) && TrimSpace(u[k].value(f)) == u[k].value(f)
            && u[k].height == (if AnyReadable(ds) then LastReadHeight(ds) else t[k].height)
            && u[k].value(f) == (if HasText(ds, f) then LastText(ds, f) else t[k].value(f))
  {
    if ds != [] {
      var n := |ds| - 1;
      NewerTextsTakeOver(t, k, ds[..n], h, f);
      if AnyReadable(ds[..n]) {
        LastReadHeightBounds(ds[..n], h + 1);
      }
      if EnsureLength(ds[n].texts) {
        TextOfSave(DescriptionRun(t, k, ds[..n]), k, ds[n], f);
      }
    }
  }

  /**
   From no row, in height order: every column holds the last trimmed text other than the
   sentinel. When only the sentinel was ever sent, the sentinel itself has been stored.
   */
  lemma {:induction false} DescriptionHoldsLastText(t: Descriptions, k: string, ds: seq<DescriptionData>, h: int,
                                                    f: Field)
    requires k !in t && DescriptionsUp(ds, h)
    ensures var u := DescriptionRun(t, k, ds);
            && (k in u <==> AnyReadable(ds))
            && (k in u ==>
                  && EnsureLength(u[k].value) && TrimSpace(u[k].value(f)) == u[k].value(f)
                  && u[k].height == LastReadHeight(ds) && u[k].value(f) == LastText(ds, f))
    ensures !AnyReadable(ds) || !HasText(ds, f) ==> LastText(ds, f) == DO_NOT_MODIFY
  {
    SentinelIsTrimmed();
    if ds != [] {
      var n := |ds| - 1;
      var before := DescriptionRun(t, k, ds[..n]);
      DescriptionHoldsLastText(t, k, ds[..n], h, f);
      if !EnsureLength(ds[n].texts) {
        assert DescriptionRun(t, k, ds) == before;
      } else if k in before {
        LastReadHeightBounds(ds[..n], h);
        TextOfSave(before, k, ds[n], f);
      } else {
        TextOfFirstSave(before, k, ds[n], f);
      }
    }
  }

  lemma {:induction false} NothingReadable(t: Descriptions, k: string, ds: seq<DescriptionData>)
    requires !AnyReadable(ds)
    ensures DescriptionRun(t, k, ds) == t
  {
    if ds != [] {
      NothingReadable(t, k, ds[..|ds| - 1]);
    }
  }

  /** The two tables show the same in one column of one validator. */
  ghost predicate SameText(a: Descriptions, b: Descriptions, k: string, f: Field) {
    (k in a <==> k in b) && (k in a ==> a[k].height == b[k].height && a[k].value(f) == b[k].value(f))
  }

  /**
   A late save loses no text: it or all newer ones are refused, or a newer save sets the text;
   or it does not change the text of the row; or there was no row and it only sends the sentinel.
   */
  predicate TextHarmless(t: Descriptions, k: string, late: DescriptionData, post: seq<DescriptionData>, f: Field) {
    || !EnsureLength(late.texts)
    || !AnyReadable(post)
    || HasText(post, f)
    || if k in t then late.texts(f) == DO_NOT_MODIFY || TrimSpace(late.texts(f)) == t[k].value(f)
       else TrimSpace(late.texts(f)) == DO_NOT_MODIFY
  }

  /** A late save, replayed after newer ones, shows the text of the height order exactly when it loses none. */
  lemma LateDescriptionExact(t: Descriptions, k: string, late: DescriptionData, post: seq<DescriptionData>, f: Field)
    requires k in t
             ==> t[k].height <= late.height && EnsureLength(t[k].value) && TrimSpace(t[k].value(f)) == t[k].value(f)
    requires DescriptionsUp(post, late.height + 1)
    ensures SameText(SaveDescription(DescriptionRun(t, k, post), Some(k), late),
                     DescriptionRun(SaveDescription(t, Some(k), late), k, post), k, f)
            <==> TextHarmless(t, k, late, post, f)
  {
    if !AnyReadable(post) {
      NothingReadable(t, k, post);
      NothingReadable(SaveDescription(t, Some(k), late), k, post);
    } else {
      LastReadHeightBounds(post, late.height + 1);
      if k in t {
        NewerTextsTakeOver(t, k, post, late.height, f);
      } else {
        DescriptionHoldsLastText(t, k, post, late.height + 1, f);
      }
      OldDescriptionIgnored(DescriptionRun(t, k, post), k, late);
      if EnsureLength(late.texts) {
        LateFirst(t, k, late, post, f);
      }
    }
  }

  /** The height order: the late save comes first. */
  lemma LateFirst(t: Descriptions, k: string, late: DescriptionData, post: seq<DescriptionData>, f: Field)
    requires k in t
             ==> t[k].height <= late.height && EnsureLength(t[k].value) && TrimSpace(t[k].value(f)) == t[k].value(f)
    requires EnsureLength(late.texts) && DescriptionsUp(post, late.height + 1) && AnyReadable(post)
    ensures var u := DescriptionRun(SaveDescription(t, Some(k), late), k, post);
            && k in u && u[k].height == LastReadHeight(post)
            && u[k].value(f) == if HasText(post, f) then LastText(post, f)
                                else if k in t && late.texts(f) == DO_NOT_MODIFY then t[k].value(f)
                                else TrimSpace(late.texts(f))
  {
    if k in t {
      TextOfSave(t, k, late, f);
    } else {
      TextOfFirstSave(t, k, late, f);
    }
    NewerTextsTakeOver(SaveDescription(t, Some(k), late), k, post, late.height, f);
  }

  /** The sentinel of a first save hides the text of an older one for good. */
  lemma SentinelHidesLateText(late: DescriptionData, newer: DescriptionData, k: string, f: Field)
    requires EnsureLength(late.texts) && EnsureLength(newer.texts) && late.height < newer.height
    requires newer.texts(f) == "[do-not-modify]"
    ensures var u := SaveDescription(SaveDescription(map[], Some(k), newer), Some(k), late);
            k in u && u[k].value(f) == "[do-not-modify]"
    ensures var u := SaveDescription(SaveDescription(map[], Some(k), late), Some(k), newer);
            k in u && u[k].value(f) == TrimSpace(late.texts(f))
  {
    SentinelIsTrimmed();
    TextOfFirstSave(map[], k, newer, f);
    TextOfFirstSave(map[], k, late, f);
    TextOfSave(SaveDescription(map[], Some(k), late), k, newer, f);
  }

  lemma SentinelIsTrimmed()
    ensures TrimSpace(DO_NOT_MODIFY) == DO_NOT_MODIFY
  {
  }
}
