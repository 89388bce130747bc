/** The statuses a scheduler task can be in, the fixed groups of statuses, and
    the translation between sets of statuses and the aggregated labels used in
    status filters ("pending", "running", "finished", ...). */
module TaskStatuses {
  import opened Text
  import opened SetQueues

  /** The enum's values, in declaration order. */
  datatype TaskStatus =
    | Submitted | Pending | Paused | Running | WaitingOnError | WaitingOnFailure
    | Failed | NotStarted | NotRestarted | Aborted | Faulty | Finished | Skipped | InError

  /** values(): every status, in declaration order. */
  const AllStatuses: seq<TaskStatus> :=
    [Submitted, Pending, Paused, Running, WaitingOnError, WaitingOnFailure,
     Failed, NotStarted, NotRestarted, Aborted, Faulty, Finished, Skipped, InError]

  const ErrorTasks: set<TaskStatus> := {InError, WaitingOnError, WaitingOnFailure, Failed, Faulty}
  const FinishedTasks: set<TaskStatus> := {Failed, NotRestarted, Aborted, Faulty, Finished, Skipped, NotStarted}
  const RunningTasks: set<TaskStatus> := {Paused, InError, Running, WaitingOnError, WaitingOnFailure}
  const PausedAndInErrorTasks: set<TaskStatus> := {Paused, InError}
  const PendingTasks: set<TaskStatus> := {Submitted, Pending}

  /** The display name each status is declared with (toString). */
  function Name(t: TaskStatus): string
  {
    match t
    case Submitted => "Submitted"
    case Pending => "Pending"
    case Paused => "Paused"
    case Running => "Running"
    case WaitingOnError => "Faulty..."
    case WaitingOnFailure => "Failed..."
    case Failed => "Resource down"
    case NotStarted => "Could not start"
    case NotRestarted => "Could not restart"
    case Aborted => "Aborted"
    case Faulty => "Faulty"
    case Finished => "Finished"
    case Skipped => "Skipped"
    case InError => "In-Error"
  }

  /** The taskAlive flag each status is declared with. */
  predicate IsTaskAlive(t: TaskStatus)
  {
    match t
    case Submitted | Pending | Paused | Running | WaitingOnError | WaitingOnFailure | InError => true
    case Failed | NotStarted | NotRestarted | Aborted | Faulty | Finished | Skipped => false
  }

  /** Position in declaration order (ordinal()). */
  function Ordinal(t: TaskStatus): nat
  {
    match t
    case Submitted => 0
    case Pending => 1
    case Paused => 2
    case Running => 3
    case WaitingOnError => 4
    case WaitingOnFailure => 5
    case Failed => 6
    case NotStarted => 7
    case NotRestarted => 8
    case Aborted => 9
    case Faulty => 10
    case Finished => 11
    case Skipped => 12
    case InError => 13
  }

  /** A task is alive exactly when its status is not one of the finished ones. */
  lemma AliveIffNotFinished(t: TaskStatus)
    ensures IsTaskAlive(t) <==> t !in FinishedTasks
  {
  }

  /** Every status is pending, running or finished; only the error group overlaps
      another one, and FAILED and FAULTY are both finished and in error. */
  lemma GroupsCoverAllStatuses(t: TaskStatus)
    ensures t in PendingTasks + RunningTasks + FinishedTasks
    ensures PendingTasks !! RunningTasks && PendingTasks !! FinishedTasks && RunningTasks !! FinishedTasks
    ensures ErrorTasks <= RunningTasks + FinishedTasks
    ensures ErrorTasks * FinishedTasks == {Failed, Faulty}
  {
  }

  /** Declaration order: the i-th value has ordinal i. */
  lemma DeclarationOrder()
    ensures forall i, j :: 0 <= i < j < |AllStatuses| ==> Ordinal(AllStatuses[i]) < Ordinal(AllStatuses[j])
  {
    assert forall i :: 0 <= i < |AllStatuses| ==> Ordinal(AllStatuses[i]) == i;
  }

  /** Every status is listed by values(). */
  lemma AllStatusesComplete(t: TaskStatus)
    ensures t in AllStatuses
  {
    assert AllStatuses[Ordinal(t)] == t;
  }

  /** The statuses of s, in s's order, that are not in avoid. */
  function Keep(s: seq<TaskStatus>, avoid: set<TaskStatus>): (r: seq<TaskStatus>)
    ensures forall t :: t in r <==> t in s && t !in avoid
  {
    if s == [] then []
    else if s[0] in avoid then Keep(s[1..], avoid)
    else [s[0]] + Keep(s[1..], avoid)
  }

  /** Filtering keeps the declaration order of what it keeps. */
  lemma {:induction false} KeepSorted(s: seq<TaskStatus>, avoid: set<TaskStatus>)
    requires forall i, j :: 0 <= i < j < |s| ==> Ordinal(s[i]) < Ordinal(s[j])
    ensures forall i, j :: 0 <= i < j < |Keep(s, avoid)| ==> Ordinal(Keep(s, avoid)[i]) < Ordinal(Keep(s, avoid)[j])
  {
    if s != [] {
      KeepSorted(s[1..], avoid);
      if s[0] !in avoid {
        var r, rest := Keep(s, avoid), Keep(s[1..], avoid);
        forall j | 0 < j < |r|
          ensures Ordinal(r[0]) < Ordinal(r[j])
        {
          assert r[j] == rest[j - 1] && rest[j - 1] in s[1..];
          var k :| 0 <= k < |s[1..]| && s[1..][k] == rest[j - 1];
          assert s[k + 1] == r[j];
        }
      }
    }
  }

  /** allExceptThese: every status but those given, in declaration order. */
  function AllExceptThese(xs: seq<TaskStatus>): (r: seq<TaskStatus>)
    ensures forall t :: t in r <==> t !in xs
    ensures forall i, j :: 0 <= i < j < |r| ==> Ordinal(r[i]) < Ordinal(r[j])
  {
    var avoid := set x | x in xs;
    DeclarationOrder();
    KeepSorted(AllStatuses, avoid);
    forall t ensures t in AllStatuses { AllStatusesComplete(t); }
    Keep(AllStatuses, avoid)
  }

  /** The four labels wrapIntoAggregatedStatuses can produce. */
  const AggregatedLabels: set<string> := {"Submitted", "Pending", "Running", "Finished"}

  /** The nine aggregated labels expandAggregatedStatusesToRealStatuses recognises. */
  const KnownLabels: set<string> :=
    {"submitted", "pending", "current", "running", "active", "past", "finished", "terminated", "error"}

  /** The statuses one aggregated label stands for, ignoring case. */
  function ExpandLabel(tag: string): set<TaskStatus>
  {
    var l := ToLower(tag);
    if l == "submitted" then {Submitted}
    else if l == "pending" then {Pending}
    else if l == "current" || l == "running" || l == "active" then RunningTasks
    else if l == "past" || l == "finished" || l == "terminated" then FinishedTasks
    else if l == "error" then ErrorTasks
    else {}
  }

  /** expandAggregatedStatusesToRealStatuses: the union of what each label stands for. */
  function Expand(labels: seq<string>): set<TaskStatus>
  {
    if labels == [] then {}
    else ExpandLabel(labels[0]) + Expand(labels[1..])
  }

  /** Exactly the nine known labels, in any case, stand for some status; any
      other label is ignored. */
  lemma ExpandLabelTable(tag: string)
    ensures ToLower(tag) in KnownLabels <==> ExpandLabel(tag) != {}
    ensures ExpandLabel(tag) == ExpandLabel(ToLower(tag))
  {
    ToLowerIdempotent(tag);
    assert Submitted in ExpandLabel("submitted");
    assert Running in RunningTasks && Finished in FinishedTasks && Failed in ErrorTasks;
  }

  /** A status is in the expansion exactly when some label stands for it. */
  lemma {:induction false} ExpandMembers(labels: seq<string>, t: TaskStatus)
    ensures t in Expand(labels) <==> exists i :: 0 <= i < |labels| && t in ExpandLabel(labels[i])
  {
    if labels != [] {
      ExpandMembers(labels[1..], t);
      if t in Expand(labels[1..]) {
        var i :| 0 <= i < |labels[1..]| && t in ExpandLabel(labels[1..][i]);
        assert labels[i + 1] == labels[1..][i];
      }
      if exists i :: 0 <= i < |labels| && t in ExpandLabel(labels[i]) {
        var i :| 0 <= i < |labels| && t in ExpandLabel(labels[i]);
        if i > 0 {
          assert labels[1..][i - 1] == labels[i];
        }
      }
    }
  }

  /** Expanding a concatenation expands each part. */
  lemma {:induction false} ExpandAppend(a: seq<string>, b: seq<string>)
    ensures Expand(a + b) == Expand(a) + Expand(b)
  {
    if a == [] {
      assert a + b == b;
    } else {
      assert (a + b)[0] == a[0] && (a + b)[1..] == a[1..] + b;
      var head := ExpandLabel(a[0]);
      calc {
        Expand(a + b);
        head + Expand(a[1..] + b);
        { ExpandAppend(a[1..], b); }
        head + (Expand(a[1..]) + Expand(b));
        Expand(a) + Expand(b);
      }
    }
  }

  /** Every label lower-cased. */
  function LowerAll(labels: seq<string>): (r: seq<string>)
    ensures |r| == |labels|
  {
    if labels == [] then [] else [ToLower(labels[0])] + LowerAll(labels[1..])
  }

  /** Case does not matter: expanding the lower-cased labels gives the same set. */
  lemma {:induction false} ExpandIgnoresCase(labels: seq<string>)
    ensures Expand(labels) == Expand(LowerAll(labels))
  {
    if labels != [] {
      ExpandIgnoresCase(labels[1..]);
      ToLowerIdempotent(labels[0]);
      var lowered := LowerAll(labels);
      assert lowered[0] == ToLower(labels[0]) && lowered[1..] == LowerAll(labels[1..]);
    }
  }

  /** The aggregated label one status is reported under (the body of the mapping
      in wrapIntoAggregatedStatuses, with all six of its branches). */
  function Label(t: TaskStatus): string
  {
    if t == Submitted then Name(Submitted)
    else if t == Pending then Name(Pending)
    else if t in RunningTasks then Name(Running)
    else if t in FinishedTasks then Name(Finished)
    else if t in ErrorTasks then "error"
    else ""
  }

  /** The last two branches of the mapping are unreachable: every status is
      reported under one of four labels, never as "error" or "". */
  lemma LabelIsAggregate(t: TaskStatus)
    ensures Label(t) in AggregatedLabels
    ensures Label(t) != "error" && Label(t) != ""
  {
    GroupsCoverAllStatuses(t);
  }

  /** Both statuses that are in error and finished are reported as finished. */
  lemma FailedAndFaultyWrapToFinished()
    ensures Label(Failed) == "Finished" && Label(Faulty) == "Finished"
  {
  }

  /** The elements of s in their first-occurrence order, skipping those in seen. */
  function DistinctFrom(s: seq<string>, seen: set<string>): (r: seq<string>)
    ensures NoDup(r)
    ensures forall x :: x in r <==> x in s && x !in seen
  {
    if s == [] then []
    else if s[0] in seen then DistinctFrom(s[1..], seen)
    else
      var rest := DistinctFrom(s[1..], seen + {s[0]});
      Prepend(s[0], rest);
      [s[0]] + rest
  }

  /** The label of each status, in the given order. */
  function Labels(statuses: seq<TaskStatus>): (r: seq<string>)
    ensures |r| == |statuses|
    ensures forall i :: 0 <= i < |r| ==> r[i] == Label(statuses[i])
  {
    seq(|statuses|, i requires 0 <= i < |statuses| => Label(statuses[i]))
  }

  /** wrapIntoAggregatedStatuses: the label of each status, without repetition.
      The set is given as the sequence its iteration visits. */
  function Wrap(statuses: seq<TaskStatus>): (r: seq<string>)
    ensures NoDup(r)
    ensures forall x :: x in r <==> x in Labels(statuses)
    ensures Elems(r) <= AggregatedLabels && |r| <= 4
  {
    var labels := Labels(statuses);
    var r := DistinctFrom(labels, {});
    forall x | x in r ensures x in AggregatedLabels {
      var i :| 0 <= i < |labels| && labels[i] == x;
      LabelIsAggregate(statuses[i]);
    }
    ElemsCard(r);
    assert |AggregatedLabels| == 4;
    SubsetCard(Elems(r), AggregatedLabels);
    r
  }

  lemma SubsetCard<T>(a: set<T>, b: set<T>)
    requires a <= b
    ensures |a| <= |b|
  {
    assert b == a + (b - a);
  }

  /** What the four aggregated labels expand to. */
  lemma ExpandAggregatedLabels()
    ensures ExpandLabel("Submitted") == {Submitted}
    ensures ExpandLabel("Pending") == {Pending}
    ensures ExpandLabel("Running") == RunningTasks
    ensures ExpandLabel("Finished") == FinishedTasks
  {
    assert ToLower("Submitted") == "submitted";
    assert ToLower("Pending") == "pending";
    assert ToLower("Running") == "running";
    assert ToLower("Finished") == "finished";
  }

  /** Every status is one of those its own label expands back to. */
  lemma InOwnLabel(t: TaskStatus)
    ensures t in ExpandLabel(Label(t))
  {
    ExpandAggregatedLabels();
  }

  /** Wrapping a set of statuses and expanding the labels again loses nothing. */
  lemma ExpandWrapContains(statuses: seq<TaskStatus>)
    ensures forall t :: t in statuses ==> t in Expand(Wrap(statuses))
  {
    var w := Wrap(statuses);
    forall t | t in statuses
      ensures t in Expand(w)
    {
      var i :| 0 <= i < |statuses| && statuses[i] == t;
      assert Labels(statuses)[i] == Label(t);
      assert Label(t) in Labels(statuses);
      assert Label(t) in w;
      var j :| 0 <= j < |w| && w[j] == Label(t);
      InOwnLabel(t);
      ExpandMembers(w, t);
    }
  }

  /** taskStatuses: the aggregated labels of the three flags, expanded. */
  function TaskStatusesFor(pending: bool, running: bool, finished: bool): seq<string>
  {
    (if pending then [Name(Submitted), Name(Pending)] else [])
    + (if running then [Name(Running)] else [])
    + (if finished then [Name(Finished)] else [])
  }

  function StatusesFor(pending: bool, running: bool, finished: bool): (r: set<TaskStatus>)
    ensures r == (if pending then PendingTasks else {})
               + (if running then RunningTasks else {})
               + (if finished then FinishedTasks else {})
  {
    var p: seq<string> := if pending then [Name(Submitted), Name(Pending)] else [];
    var r: seq<string> := if running then [Name(Running)] else [];
    var f: seq<string> := if finished then [Name(Finished)] else [];
    ExpandAggregatedLabels();
    ExpandAppend(p, r);
    ExpandAppend(p + r, f);
    assert Expand(p) == if pending then PendingTasks else {} by {
      if pending { ExpandAppend([Name(Submitted)], [Name(Pending)]); }
    }
    Expand(TaskStatusesFor(pending, running, finished))
  }

  /** statusesToString: the aggregated labels joined with ';'. */
  function StatusesToString(statuses: seq<TaskStatus>): string
  {
    Join(Wrap(statuses), ';')
  }

  /** statusFilterString: the display names joined with ';'. */
  function StatusFilterString(statuses: seq<TaskStatus>): string
  {
    Join(seq(|statuses|, i requires 0 <= i < |statuses| => Name(statuses[i])), ';')
  }

  /** No display name contains the separator. */
  lemma NameHasNoSeparator(t: TaskStatus)
    ensures ';' !in Name(t)
  {
  }

  /** Splitting statusesToString at ';' gives back the wrapped labels. */
  lemma StatusesToStringSplits(statuses: seq<TaskStatus>)
    requires statuses != []
    ensures Split(StatusesToString(statuses), ';') == Wrap(statuses)
  {
    var w := Wrap(statuses);
    assert Label(statuses[0]) in Labels(statuses);
    forall i | 0 <= i < |w| ensures ';' !in w[i] {
      assert w[i] in Elems(w);
      AggregatedLabelHasNoSeparator(w[i]);
    }
    SplitJoin(w, ';');
  }

  /** No aggregated label contains the separator. */
  lemma AggregatedLabelHasNoSeparator(l: string)
    requires l in AggregatedLabels
    ensures ';' !in l
  {
  }

  /** Splitting statusFilterString at ';' gives back the display names, in order. */
  lemma StatusFilterStringSplits(statuses: seq<TaskStatus>)
    requires statuses != []
    ensures Split(StatusFilterString(statuses), ';')
         == seq(|statuses|, i requires 0 <= i < |statuses| => Name(statuses[i]))
  {
    var names := seq(|statuses|, i requires 0 <= i < |statuses| => Name(statuses[i]));
    forall i | 0 <= i < |names| ensures ';' !in names[i] {
      NameHasNoSeparator(statuses[i]);
    }
    SplitJoin(names, ';');
  }

  /** With no status at all, both strings are empty. */
  lemma EmptyStatusStrings()
    ensures StatusesToString([]) == "" && StatusFilterString([]) == ""
  {
  }
}
