/** The interview-plan onboarding page: its list of interview stages, seeded
    with two stages, the delete operation of each stage card, and the divider
    style chosen from a stage's name. */
module InterviewPlan {
  import opened Sequences

  datatype Stage = Stage(id: int, name: string, description: string, duration: string)

  /** No two stages share an id. */
  predicate DistinctIds(stages: seq<Stage>)
  {
    forall i, j :: 0 <= i < j < |stages| ==> stages[i].id != stages[j].id
  }

  /** The number of stages carrying `id`. */
  function CountId(stages: seq<Stage>, id: int): (n: nat)
    ensures n <= |stages|
    ensures n == 0 <==> forall st :: st in stages ==> st.id != id
  {
    if stages == [] then 0
    else
      assert stages[0] in stages;
      assert forall st :: st in stages[1..] ==> st in stages;
      (if stages[0].id == id then 1 else 0) + CountId(stages[1..], id)
  }

  /** The two stages the page starts with. */
  function InitialStages(): (stages: seq<Stage>)
    ensures |stages| == 2
    ensures stages[0].id == 1 && stages[0].name == "Initial Call"
    ensures stages[1].id == 2 && stages[1].name == "Assessment"
    ensures DistinctIds(stages)
  {
    [
      Stage(1, "Initial Call", "First contact to introduce the role and assess interest.", "10–15 mins"),
      Stage(2, "Assessment",
        "Evaluation of skills and qualifications through a AI Interview and Coding Assessment.", "30 mins")
    ]
  }

  /** The stages whose id differs from `id`, in their original order. */
  function WithoutStage(stages: seq<Stage>, id: int): (r: seq<Stage>)
    ensures forall st :: st in r <==> st in stages && st.id != id
    ensures SubsequenceOf(r, stages)
  {
    Filter(stages, (st: Stage) => st.id != id)
  }

  /** Deletion removes exactly the stages carrying `id`. */
  lemma {:induction false} WithoutStageLength(stages: seq<Stage>, id: int)
    ensures |WithoutStage(stages, id)| == |stages| - CountId(stages, id)
  {
    if stages != [] {
      WithoutStageLength(stages[1..], id);
    }
  }

  /** Deleting an id no stage carries leaves the list as it was. */
  lemma WithoutAbsentStage(stages: seq<Stage>, id: int)
    requires forall st :: st in stages ==> st.id != id
    ensures WithoutStage(stages, id) == stages
  {
    FilterKeepsAll(stages, (st: Stage) => st.id != id);
  }

  /** Deleting the same id twice is deleting it once. */
  lemma WithoutStageIdempotent(stages: seq<Stage>, id: int)
    ensures WithoutStage(WithoutStage(stages, id), id) == WithoutStage(stages, id)
  {
    FilterIdempotent(stages, (st: Stage) => st.id != id);
  }

  /** A subsequence of a list with distinct ids has distinct ids. */
  lemma WithoutStageKeepsDistinctIds(stages: seq<Stage>, id: int)
    requires DistinctIds(stages)
    ensures DistinctIds(WithoutStage(stages, id))
  {
    var rel := (a: Stage, b: Stage) => a.id != b.id;
    assert Pairwise(stages, rel);
    SubsequencePairwise(WithoutStage(stages, id), stages, rel);
  }

  /** With distinct ids a present id occurs once. */
  lemma {:induction false} CountIdDistinct(stages: seq<Stage>, id: int)
    requires DistinctIds(stages)
    ensures CountId(stages, id) <= 1
  {
    if stages != [] {
      assert DistinctIds(stages[1..]) by {
        forall i, j | 0 <= i < j < |stages| - 1 ensures stages[1..][i].id != stages[1..][j].id {
          assert stages[i + 1].id != stages[j + 1].id;
        }
      }
      CountIdDistinct(stages[1..], id);
      if stages[0].id == id {
        forall st | st in stages[1..] ensures st.id != id {
          var k :| 0 <= k < |stages| - 1 && stages[1..][k] == st;
          assert stages[0].id != stages[k + 1].id;
        }
      }
    }
  }

  /** With distinct ids, deleting a present id shortens the list by one. */
  lemma WithoutPresentStage(stages: seq<Stage>, id: int)
    requires DistinctIds(stages)
    requires exists st :: st in stages && st.id == id
    ensures |WithoutStage(stages, id)| == |stages| - 1
  {
    WithoutStageLength(stages, id);
    CountIdDistinct(stages, id);
  }

  /** The page's state: its list of stages. */
  class InterviewPlanPage {
    var stages: seq<Stage>

    ghost predicate Valid()
      reads this
    {
      DistinctIds(stages)
    }

    /** The page opens with the two seeded stages. */
    constructor ()
      ensures Valid()
      ensures stages == InitialStages()
    {
      stages := InitialStages();
    }

    /** The trash button of a stage card: drops every stage with that id. */
    method DeleteStage(id: int)
      requires Valid()
      modifies this
      ensures Valid()
      ensures stages == WithoutStage(old(stages), id)
      ensures forall st :: st in stages ==> st.id != id
      ensures forall st :: st in old(stages) && st.id != id ==> st in stages
      ensures (exists st :: st in old(stages) && st.id == id) ==> |stages| == |old(stages)| - 1
      ensures (forall st :: st in old(stages) ==> st.id != id) ==> stages == old(stages)
    {
      WithoutStageKeepsDistinctIds(stages, id);
      if exists st :: st in stages && st.id == id {
        WithoutPresentStage(stages, id);
      } else {
        WithoutAbsentStage(stages, id);
      }
      stages := WithoutStage(stages, id);
    }
  }

  /** The colour and height of the divider drawn under a stage's header. */
  datatype DividerStyle = DividerStyle(color: string, height: string)

  /** The divider colour for a stage that is neither "Initial Call" nor "Assessment". */
  const OtherStageDividerColor := "#ccc"

  function StageDivider(name: string): (d: DividerStyle)
    ensures name == "Initial Call" ==> d == DividerStyle("#b3cbddff", "2px")
    ensures name == "Assessment" ==> d == DividerStyle("#e8ebcaff", "2px")
    ensures name != "Initial Call" && name != "Assessment" ==> d == DividerStyle(OtherStageDividerColor, "1px")
  {
    var color :=
      if name == "Initial Call" then "#b3cbddff"
      else if name == "Assessment" then "#e8ebcaff"
      else OtherStageDividerColor;
    var height := if name == "Initial Call" || name == "Assessment" then "2px" else "1px";
    DividerStyle(color, height)
  }

  /** The two conditions of the divider agree: it is thick exactly when it is
      coloured. */
  lemma DividerThickExactlyWhenColoured(name: string)
    ensures StageDivider(name).height == "2px" <==> StageDivider(name).color != OtherStageDividerColor
  {
  }
}
