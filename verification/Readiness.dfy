/** The gate for a human-labelled calibration set (agent/calibration.py). */
module Readiness {
  import opened Options
  import opened Agreement

  datatype Provenance = FromHuman | Synthetic | Unknown

  /** How field values read: provenance, and text with surrounding whitespace removed. */
  datatype Reader<!V> = Reader(norm: Norm<V>, provenance: V -> Provenance, stripped: V -> string)

  datatype Floors = Floors(minItems: int, minDoubleLabelled: int, minRawAgreement: real, minKappa: real)

  datatype Reason =
    | TooFewItems | SyntheticRows | UnknownRows | NotAllHuman | MissingAnnotators | MissingGold
    | TooFewDoubleLabelled | LowAgreement | LowKappa

  datatype Counts = Counts(human: nat, synthetic: nat, unknown: nat, missingAnnotators: nat, missingGold: nat)

  /** A row without provenance counts as synthetic. */
  function LabelSource<V>(item: Item<V>, r: Reader<V>): Provenance {
    if "label_source" in item then r.provenance(item["label_source"]) else Synthetic
  }

  predicate Present<V>(item: Item<V>, key: string, r: Reader<V>) { key in item && r.stripped(item[key]) != "" }

  /** The provenance a row states, and synthetic if it states none. */
  predicate Sourced<V>(item: Item<V>, source: Provenance, r: Reader<V>) {
    if "label_source" in item then r.provenance(item["label_source"]) == source else source == Synthetic
  }

  predicate Blank<V>(item: Item<V>, key: string, r: Reader<V>) { key !in item || r.stripped(item[key]) == "" }

  /** A human row that names both annotators and carries a gold label. */
  predicate Complete<V>(item: Item<V>, gold: string, r: Reader<V>) {
    && Sourced(item, FromHuman, r)
    && !Blank(item, "annotator_a", r) && !Blank(item, "annotator_b", r) && !Blank(item, gold, r)
  }

  predicate Annotated<V>(item: Item<V>, r: Reader<V>) {
    Present(item, "annotator_a", r) && Present(item, "annotator_b", r)
  }

  function CountedRow<V>(c: Counts, item: Item<V>, gold: string, r: Reader<V>): Counts {
    match LabelSource(item, r)
    case Synthetic => c.(synthetic := c.synthetic + 1)
    case Unknown => c.(unknown := c.unknown + 1)
    case FromHuman =>
      c.(human := c.human + 1,
         missingAnnotators := c.missingAnnotators + (if Annotated(item, r) then 0 else 1),
         missingGold := c.missingGold + (if Present(item, gold, r) then 0 else 1))
  }

  function Counted<V>(items: seq<Item<V>>, gold: string, r: Reader<V>): Counts {
    if items == [] then Counts(0, 0, 0, 0, 0)
    else CountedRow(Counted(items[..|items| - 1], gold, r), items[|items| - 1], gold, r)
  }

  /** The provenance counters partition the rows, and they show nothing amiss exactly when every row
      is complete. */
  lemma {:induction false} CountedFacts<V>(items: seq<Item<V>>, gold: string, r: Reader<V>)
    ensures var c := Counted(items, gold, r);
            && c.human + c.synthetic + c.unknown == |items|
            && (c.human == |items| && c.missingAnnotators == 0 && c.missingGold == 0
                <==> forall k :: 0 <= k < |items| ==> Complete(items[k], gold, r))
  {
    if items != [] {
      CountedFacts(items[..|items| - 1], gold, r);
      assert forall k :: 0 <= k < |items| - 1 ==> items[k] == items[..|items| - 1][k];
    }
  }

  // ----- The counters, as numbers of rows -----

  function RowsFrom<V>(items: seq<Item<V>>, source: Provenance, r: Reader<V>): set<nat> {
    set k: nat | k < |items| && Sourced(items[k], source, r)
  }

  /** Human rows without one of the two annotators. */
  function Unsigned<V>(items: seq<Item<V>>, r: Reader<V>): set<nat> {
    set k: nat | k < |items| && Sourced(items[k], FromHuman, r)
                 && (Blank(items[k], "annotator_a", r) || Blank(items[k], "annotator_b", r))
  }

  /** Human rows without a gold label. */
  function Unlabelled<V>(items: seq<Item<V>>, gold: string, r: Reader<V>): set<nat> {
    set k: nat | k < |items| && Sourced(items[k], FromHuman, r) && Blank(items[k], gold, r)
  }

  lemma Grows(before: set<nat>, after: set<nat>, n: nat, counted: bool)
    requires forall k :: k in before ==> k < n
    requires forall k :: k in after <==> k in before || (counted && k == n)
    ensures |after| == |before| + (if counted then 1 else 0)
  {
    if counted { assert after == before + {n}; } else { assert after == before; }
  }

  lemma RowsGrow<V>(items: seq<Item<V>>, gold: string, r: Reader<V>)
    requires items != []
    ensures var (front, last) := (items[..|items| - 1], items[|items| - 1]);
            && (forall s :: |RowsFrom(items, s, r)| == |RowsFrom(front, s, r)| + (if Sourced(last, s, r) then 1 else 0))
            && |Unsigned(items, r)| == |Unsigned(front, r)|
                 + (if Sourced(last, FromHuman, r) && (Blank(last, "annotator_a", r) || Blank(last, "annotator_b", r))
                    then 1 else 0)
            && |Unlabelled(items, gold, r)| == |Unlabelled(front, gold, r)|
                 + (if Sourced(last, FromHuman, r) && Blank(last, gold, r) then 1 else 0)
  {
    var front, last := items[..|items| - 1], items[|items| - 1];
    forall s ensures |RowsFrom(items, s, r)| == |RowsFrom(front, s, r)| + (if Sourced(last, s, r) then 1 else 0) {
      Grows(RowsFrom(front, s, r), RowsFrom(items, s, r), |front|, Sourced(last, s, r));
    }
    Grows(Unsigned(front, r), Unsigned(items, r), |front|,
          Sourced(last, FromHuman, r) && (Blank(last, "annotator_a", r) || Blank(last, "annotator_b", r)));
    Grows(Unlabelled(front, gold, r), Unlabelled(items, gold, r), |front|,
          Sourced(last, FromHuman, r) && Blank(last, gold, r));
  }

  /** Each provenance counter is the number of rows of that source, rows without one being synthetic; the other two
      are the numbers of human rows on which something is missing or blank. */
  lemma {:induction false} CountersCount<V>(items: seq<Item<V>>, gold: string, r: Reader<V>)
    ensures var c := Counted(items, gold, r);
            && c.human == |RowsFrom(items, FromHuman, r)| && c.synthetic == |RowsFrom(items, Synthetic, r)|
            && c.unknown == |RowsFrom(items, Unknown, r)|
            && c.missingAnnotators == |Unsigned(items, r)| && c.missingGold == |Unlabelled(items, gold, r)|
  {
    if items != [] {
      CountersCount(items[..|items| - 1], gold, r);
      RowsGrow(items, gold, r);
    }
  }

  method CountRows<V>(items: seq<Item<V>>, gold: string, r: Reader<V>) returns (c: Counts)
    ensures c == Counted(items, gold, r)
  {
    c := Counts(0, 0, 0, 0, 0);
    for i := 0 to |items|
      invariant c == Counted(items[..i], gold, r)
    {
      var item := items[i];
      assert items[..i + 1][..i] == items[..i];
      match LabelSource(item, r) {
        case FromHuman => c := c.(human := c.human + 1);
        case Synthetic => c := c.(synthetic := c.synthetic + 1);
        case Unknown => c := c.(unknown := c.unknown + 1);
      }
      if LabelSource(item, r).FromHuman? {
        if !Present(item, "annotator_a", r) || !Present(item, "annotator_b", r) {
          c := c.(missingAnnotators := c.missingAnnotators + 1);
        }
        if !Present(item, gold, r) {
          c := c.(missingGold := c.missingGold + 1);
        }
      }
    }
    assert items[..|items|] == items;
  }

  /** Every row is complete and all four floors are met by the reported figures; a set without a doubly
      labelled row is never ready. */
  ghost predicate Ready<V>(items: seq<Item<V>>, floors: Floors, first: string, second: string, gold: string,
                           r: Reader<V>)
  {
    var t := Tally(items, first, second, r.norm);
    && items != [] && |items| >= floors.minItems
    && (forall k :: 0 <= k < |items| ==> Complete(items[k], gold, r))
    && t.Total() > 0 && t.Total() >= floors.minDoubleLabelled
    && Round6(RawAgreement(t)) >= floors.minRawAgreement && Round6(Kappa(t)) >= floors.minKappa
  }

  function Given(holds: bool, reason: Reason): seq<Reason> { if holds then [reason] else [] }

  method Note(reasons: seq<Reason>, holds: bool, reason: Reason) returns (r: seq<Reason>)
    ensures r == reasons + Given(holds, reason)
  {
    r := reasons;
    if holds { r := r + [reason]; }
  }

  /** Which reasons are given, in order. */
  method Reasons(n: nat, floors: Floors, c: Counts, agreement: AgreementReport) returns (reasons: seq<Reason>)
    ensures reasons == Given(n < floors.minItems, TooFewItems)
                       + Given(c.synthetic > 0, SyntheticRows)
                       + Given(c.unknown > 0, UnknownRows)
                       + Given(c.human != n || c.human == 0, NotAllHuman)
                       + Given(c.missingAnnotators > 0, MissingAnnotators)
                       + Given(c.missingGold > 0, MissingGold)
                       + Given(agreement.nDoubleLabelled < floors.minDoubleLabelled, TooFewDoubleLabelled)
                       + Given(agreement.rawAgreement == None || agreement.rawAgreement.value < floors.minRawAgreement,
                               LowAgreement)
                       + Given(agreement.cohensKappa == None || agreement.cohensKappa.value < floors.minKappa, LowKappa)
  {
    reasons := Note([], n < floors.minItems, TooFewItems);
    assert reasons == Given(n < floors.minItems, TooFewItems);
    reasons := Note(reasons, c.synthetic > 0, SyntheticRows);
    reasons := Note(reasons, c.unknown > 0, UnknownRows);
    reasons := Note(reasons, c.human != n || c.human == 0, NotAllHuman);
    reasons := Note(reasons, c.missingAnnotators > 0, MissingAnnotators);
    reasons := Note(reasons, c.missingGold > 0, MissingGold);
    reasons := Note(reasons, agreement.nDoubleLabelled < floors.minDoubleLabelled, TooFewDoubleLabelled);
    reasons := Note(reasons, agreement.rawAgreement == None || agreement.rawAgreement.value < floors.minRawAgreement,
                    LowAgreement);
    reasons := Note(reasons, agreement.cohensKappa == None || agreement.cohensKappa.value < floors.minKappa, LowKappa);
  }

  method Assess<V>(items: seq<Item<V>>, floors: Floors, first: string, second: string, gold: string, r: Reader<V>)
    returns (ready: bool, reasons: seq<Reason>, c: Counts)
    ensures ready <==> reasons == []
    ensures c == Counted(items, gold, r)
    ensures ready <==> Ready(items, floors, first, second, gold, r)
    ensures c == Counts(|RowsFrom(items, FromHuman, r)|, |RowsFrom(items, Synthetic, r)|, |RowsFrom(items, Unknown, r)|,
                        |Unsigned(items, r)|, |Unlabelled(items, gold, r)|)
    ensures var t := Tally(items, first, second, r.norm);
            reasons == Given(|items| < floors.minItems, TooFewItems)
                       + Given(c.synthetic > 0, SyntheticRows)
                       + Given(c.unknown > 0, UnknownRows)
                       + Given(c.human < |items| || items == [], NotAllHuman)
                       + Given(c.missingAnnotators > 0, MissingAnnotators)
                       + Given(c.missingGold > 0, MissingGold)
                       + Given(t.Total() < floors.minDoubleLabelled, TooFewDoubleLabelled)
                       + Given(t.Total() == 0 || Round6(RawAgreement(t)) < floors.minRawAgreement, LowAgreement)
                       + Given(t.Total() == 0 || Round6(Kappa(t)) < floors.minKappa, LowKappa)
  {
    var n := |items|;
    c := CountRows(items, gold, r);
    CountedFacts(items, gold, r);
    CountersCount(items, gold, r);
    var agreement := ComputeAgreementReport(items, first, second, r.norm);
    reasons := Reasons(n, floors, c, agreement);
    ready := reasons == [];
  }

  // ----- Readiness does not check the gold label -----

  /** Nothing is skipped by the cost matrix exactly when every row carries two labels that normalise:
      what readiness would have to ask for as well. */
  lemma {:induction false} NothingSkippedIff<V>(items: seq<Item<V>>, first: string, second: string, norm: Norm<V>)
    ensures Skipped(items, first, second, norm) == 0
            <==> forall k :: 0 <= k < |items| ==> Labelled(items[k], first, second, norm)
  {
    if items != [] {
      var front := items[..|items| - 1];
      NothingSkippedIff(front, first, second, norm);
      assert forall k :: 0 <= k < |front| ==> items[k] == front[k];
    }
  }

  function Copies<V>(item: Item<V>, n: nat): seq<Item<V>> { seq(n, _ => item) }

  /** Copies of a row on which both annotators say auto make a table of agreement alone. */
  lemma {:induction false} CopiesAgree<V>(item: Item<V>, n: nat, first: string, second: string, norm: Norm<V>)
    requires Label(item, first, norm) == Label(item, second, norm) == Some(Agreement.Auto)
    ensures Tally(Copies(item, n), first, second, norm) == Cells(n, 0, 0, 0)
  {
    if n > 0 {
      assert Copies(item, n)[..n - 1] == Copies(item, n - 1);
      CopiesAgree(item, n - 1, first, second, norm);
    }
  }

  lemma {:induction false} CopiesSkipped<V>(item: Item<V>, n: nat, first: string, second: string, norm: Norm<V>)
    requires !Labelled(item, first, second, norm)
    ensures Skipped(Copies(item, n), first, second, norm) == n
  {
    if n > 0 {
      assert Copies(item, n)[..n - 1] == Copies(item, n - 1);
      CopiesSkipped(item, n - 1, first, second, norm);
    }
  }

  /** Floors that some set can meet. */
  predicate Attainable(f: Floors) { f.minRawAgreement <= 1.0 && f.minKappa <= 1.0 }

  lemma PerfectAgreement(n: nat)
    requires n > 0
    ensures Round6(RawAgreement(Cells(n, 0, 0, 0))) == 1.0 && Round6(Kappa(Cells(n, 0, 0, 0))) == 1.0
  {
    var c := Cells(n, 0, 0, 0);
    RawOneIffNoDisagreement(c);
    KappaOneIffAllAgree(c);
    ReportedWithin(1.0);
  }

  /** Whatever the floors, a set can be ready although the cost matrix skips every row of it: any row
      that is complete and agreed on, repeated often enough, is ready, and its gold label is only
      required not to be blank. It does not matter under which key the predictions are. */
  lemma ReadyThoughUnusable<V>(item: Item<V>, n: nat, floors: Floors, first: string, second: string, gold: string,
                              predicted: string, r: Reader<V>)
    requires Attainable(floors) && n > 0 && n >= floors.minItems && n >= floors.minDoubleLabelled
    requires Complete(item, gold, r)
    requires Label(item, first, r.norm) == Label(item, second, r.norm) == Some(Agreement.Auto)
    requires Label(item, gold, r.norm) == None
    ensures Ready(Copies(item, n), floors, first, second, gold, r)
    ensures Skipped(Copies(item, n), predicted, gold, r.norm) == n == |Copies(item, n)|
  {
    CopiesAgree(item, n, first, second, r.norm);
    CopiesSkipped(item, n, predicted, gold, r.norm);
    PerfectAgreement(n);
  }

  function Sample(): Item<string> {
    map["label_source" := "human", "annotator_a" := "a", "annotator_b" := "b", "label_a" := "auto", "label_b" := "auto",
        "gold" := "maybe"]
  }

  function PlainReader(): Reader<string> {
    Reader((t: string) => if t == "auto" then Some(Agreement.Auto)
                         else if t == "human" then Some(Agreement.Human) else None,
           (t: string) => if t == "human" then FromHuman else Unknown,
           (t: string) => t)
  }

  /** Such rows exist: the gold label "maybe". */
  lemma GoldMayBeUnusable(n: nat, floors: Floors, predicted: string)
    requires Attainable(floors) && n > 0 && n >= floors.minItems && n >= floors.minDoubleLabelled
    ensures var items, r := Copies(Sample(), n), PlainReader();
            Ready(items, floors, "label_a", "label_b", "gold", r)
            && Skipped(items, predicted, "gold", r.norm) == |items|
  {
    ReadyThoughUnusable(Sample(), n, floors, "label_a", "label_b", "gold", predicted, PlainReader());
  }
}
