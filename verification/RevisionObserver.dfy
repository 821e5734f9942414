/**
 How the passive displays number the revisions of a file they watch (_classify_revision of
 ncc/historical_display.py and ncc/journey_display.py): a generation lasts as long as the
 file only grows.
 */
module RevisionObserver {
  import opened Wrappers

  datatype Revision = Revision(file: (int, int), run: string, header: string, records: seq<string>)

  datatype Change = Initial | IdentityChanged | Restarted | Replaced | Appended | Truncated

  /** The later revision is the earlier one, with records perhaps added at the end. */
  predicate Continues(earlier: Revision, later: Revision) {
    earlier.file == later.file && earlier.run == later.run && earlier.header == later.header
      && earlier.records <= later.records
  }

  /** The generation after the revisions `history`: it rises with each that does not continue
      the one before. */
  function GenerationAfter(history: seq<Revision>): nat {
    var n := |history|;
    if n <= 1 then 1 else GenerationAfter(history[..n - 1]) + if Continues(history[n - 2], history[n - 1]) then 0 else 1
  }

  /** What the newest revision is called. */
  function ChangeAfter(history: seq<Revision>): Change {
    var n := |history|;
    if n <= 1 then Initial
    else
      var (previous, current) := (history[n - 2], history[n - 1]);
      if current == previous then ChangeAfter(history[..n - 1])
      else if current.run != previous.run then IdentityChanged
      else if current.file != previous.file then Restarted
      else if current.header != previous.header then Replaced
      else if previous.records <= current.records then Appended
      else if current.records <= previous.records then Truncated
      else Replaced
  }

  class Observer {
    var previousRevision: Option<Revision>
    var lastChange: Change
    var generation: nat
    ghost var history: seq<Revision>

    ghost predicate Valid()
      reads this
    {
      && generation == GenerationAfter(history) && lastChange == ChangeAfter(history)
      && previousRevision == if history == [] then None else Some(history[|history| - 1])
    }

    constructor ()
      ensures Valid() && history == [] && generation == 1
    {
      previousRevision, lastChange, generation, history := None, Initial, 1, [];
    }

    method ClassifyRevision(revision: Revision) returns (change: Change)
      requires Valid()
      modifies this
      ensures Valid() && history == old(history) + [revision] && change == ChangeAfter(history)
      ensures generation == GenerationAfter(history)
    {
      assert (history + [revision])[..|history|] == history;
      var changed := true;
      if previousRevision.None? {
        change := Initial;
      } else {
        var previous := previousRevision.value;
        if revision.file != previous.file {
          change := if revision.run != previous.run then IdentityChanged else Restarted;
        } else if revision.run != previous.run {
          change := IdentityChanged;
        } else if revision.header != previous.header {
          change := Replaced;
        } else if revision.records == previous.records {
          change := lastChange;
          changed := false;
        } else if previous.records <= revision.records {
          change := Appended;
        } else if revision.records <= previous.records {
          change := Truncated;
        } else {
          change := Replaced;
        }
      }
      if changed && change in {IdentityChanged, Replaced, Restarted, Truncated} {
        generation := generation + 1;
      }
      if changed {
        lastChange := change;
      }
      previousRevision := Some(revision);
      history := history + [revision];
      change := lastChange;
    }
  }

  lemma {:induction false} GenerationsRise(history: seq<Revision>, i: nat, j: nat)
    requires i <= j <= |history|
    ensures GenerationAfter(history[..i]) <= GenerationAfter(history[..j])
  {
    if i < j {
      GenerationsRise(history, i, j - 1);
      assert history[..j][..j - 1] == history[..j - 1];
    }
  }

  predicate ContinuesThrough(history: seq<Revision>, i: nat, j: nat)
    requires i <= j < |history|
  {
    forall k :: i <= k < j ==> Continues(history[k], history[k + 1])
  }

  /** Two snapshots share a generation exactly when nothing between them breaks the growth, and
      then the file, the run and the header are the same and the earlier records are a prefix
      of the later. */
  lemma {:induction false} SharedGeneration(history: seq<Revision>, i: nat, j: nat)
    requires i <= j < |history|
    ensures GenerationAfter(history[..i + 1]) == GenerationAfter(history[..j + 1]) <==> ContinuesThrough(history, i, j)
    ensures GenerationAfter(history[..i + 1]) == GenerationAfter(history[..j + 1]) ==> Continues(history[i], history[j])
  {
    hide Continues;
    if i < j {
      SharedGeneration(history, i, j - 1);
      GenerationsRise(history, i + 1, j);
      var part := history[..j + 1];
      assert part[..j] == history[..j] && part[j - 1] == history[j - 1] && part[j] == history[j];
      if Continues(history[i], history[j - 1]) && Continues(history[j - 1], history[j]) {
        Transitive(history[i], history[j - 1], history[j]);
      }
      assert ContinuesThrough(history, i, j) <==>
        ContinuesThrough(history, i, j - 1) && Continues(history[j - 1], history[j]) by {
        assert Continues(history[j - 1], history[j - 1 + 1]) == Continues(history[j - 1], history[j]);
      }
    } else {
      Itself(history[i]);
    }
  }

  lemma Transitive(a: Revision, b: Revision, c: Revision)
    requires Continues(a, b) && Continues(b, c)
    ensures Continues(a, c)
  {
  }

  lemma Itself(a: Revision)
    ensures Continues(a, a)
  {
  }

  /** A display is told "appended" only of a growing file: the newest change with that name
      continues the revision before it, and an unchanged file keeps its last name. */
  lemma {:induction false} NamesOfChanges(history: seq<Revision>)
    requires |history| >= 2
    ensures var (previous, current, change) := (history[|history| - 2], history[|history| - 1], ChangeAfter(history));
      && (current != previous && Continues(previous, current) <==> current != previous && change == Appended)
      && (current != previous && !Continues(previous, current) <==>
            current != previous && change in {IdentityChanged, Restarted, Replaced, Truncated})
      && (current == previous ==> change == ChangeAfter(history[..|history| - 1]))
      && (current != previous ==>
            && (change == IdentityChanged <==> current.run != previous.run)
            && (change == Restarted <==> current.run == previous.run && current.file != previous.file)
            && (change == Truncated <==> Continues(current, previous))
            && change != Initial)
  {
  }
}
