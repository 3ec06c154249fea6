/**
 * Local vote state of a status poll, as the two poll handlers of the status
 * cell delegate change it: tapping an option row, and pressing the vote button.
 * A handler first updates the poll in place (optimistically), then may send a
 * vote request; when that request fails, it rolls `isVoting` back.
 */
module PollVoting {
  import opened Wrappers

  /** One option row: the index the server gives the option, and whether it is ticked. */
  datatype PollOption = PollOption(index: int, isSelected: bool)

  /** A snapshot of a poll's local state. */
  datatype PollState = PollState(options: seq<PollOption>, multiple: bool, isVoting: bool)

  /** What a handler leaves behind before the network answers: the poll, and the choices sent, if any. */
  datatype Step = Step(state: PollState, request: Option<seq<int>>)

  function Toggled(o: PollOption): PollOption {
    o.(isSelected := !o.isSelected)
  }

  /** Every option other than the one at position `t` is deselected. */
  function DeselectOthers(opts: seq<PollOption>, t: nat): (r: seq<PollOption>)
    ensures |r| == |opts|
  {
    seq(|opts|, i requires 0 <= i < |opts| => if i == t then opts[i] else opts[i].(isSelected := false))
  }

  /**
   * Tapping the option at position `t`. A position with no option behind it
   * (the data source or the managed object lookup finds nothing), or a poll
   * that is already voting, leaves everything as it was. A single-choice poll
   * deselects the other options, marks the poll voting and sends the tapped
   * option's index as the one choice; both kinds then toggle the tapped option.
   */
  function Tap(s: PollState, t: nat): (r: Step)
    ensures |r.state.options| == |s.options| && r.state.multiple == s.multiple
    ensures forall i :: 0 <= i < |s.options| ==> r.state.options[i].index == s.options[i].index
    ensures s.isVoting || t >= |s.options| ==> r == Step(s, None)
    ensures !s.isVoting && t < |s.options| ==> r.state.options[t].isSelected == !s.options[t].isSelected
    ensures !s.isVoting && t < |s.options| && !s.multiple ==>
              && (forall i :: 0 <= i < |s.options| && i != t ==> !r.state.options[i].isSelected)
              && r.state.isVoting
              && r.request == Some([s.options[t].index])
    ensures !s.isVoting && t < |s.options| && s.multiple ==>
              && r.request == None
              && r.state.isVoting == s.isVoting
              && (forall i :: 0 <= i < |s.options| && i != t ==> r.state.options[i] == s.options[i])
    ensures r.request.Some? <==> !s.isVoting && t < |s.options| && !s.multiple
  {
    if t >= |s.options| || s.isVoting then Step(s, None)
    else
      var cleared := if s.multiple then s.options else DeselectOthers(s.options, t);
      var toggled := cleared[t := Toggled(cleared[t])];
      var request := if s.multiple then None else Some([s.options[t].index]);
      Step(PollState(toggled, s.multiple, if s.multiple then s.isVoting else true), request)
  }

  /**
   * The choices the vote button sends: the indices of the ticked options,
   * in option order (filter, then map).
   */
  function Choices(opts: seq<PollOption>): (cs: seq<int>)
    ensures |cs| <= |opts|
  {
    if opts == [] then []
    else
      var last := opts[|opts| - 1];
      Choices(opts[..|opts| - 1]) + (if last.isSelected then [last.index] else [])
  }

  /**
   * Reference definition: the positions of the ticked options, strictly
   * ascending, and every ticked position among them.
   */
  function SelectedPositions(opts: seq<PollOption>): (ps: seq<nat>)
    ensures forall k :: 0 <= k < |ps| ==> ps[k] < |opts| && opts[ps[k]].isSelected
    ensures forall k, l :: 0 <= k < l < |ps| ==> ps[k] < ps[l]
    ensures forall i :: 0 <= i < |opts| && opts[i].isSelected ==> i in ps
  {
    if opts == [] then []
    else
      var n := |opts| - 1;
      SelectedPositions(opts[..n]) + (if opts[n].isSelected then [n] else [])
  }

  /** The choices are exactly the indices of the ticked options, in option order. */
  lemma {:induction false} ChoicesInOptionOrder(opts: seq<PollOption>)
    ensures |Choices(opts)| == |SelectedPositions(opts)|
    ensures forall k :: 0 <= k < |Choices(opts)| ==> Choices(opts)[k] == opts[SelectedPositions(opts)[k]].index
  {
    if opts != [] {
      var n := |opts| - 1;
      var prefix := opts[..n];
      ChoicesInOptionOrder(prefix);
      var cs0, ps0 := Choices(prefix), SelectedPositions(prefix);
      var cs, ps := Choices(opts), SelectedPositions(opts);
      assert cs == cs0 + (if opts[n].isSelected then [opts[n].index] else []);
      assert ps == ps0 + (if opts[n].isSelected then [n] else []);
      forall k | 0 <= k < |cs|
        ensures cs[k] == opts[ps[k]].index
      {
        if k < |cs0| {
          assert prefix[ps0[k]] == opts[ps0[k]];
        }
      }
    }
  }

  /** Every choice sent is the index of some ticked option, and every ticked option's index is sent. */
  lemma ChoicesAreSelectedIndices(opts: seq<PollOption>)
    ensures forall c :: c in Choices(opts) <==> exists i :: 0 <= i < |opts| && opts[i].isSelected && opts[i].index == c
  {
    ChoicesInOptionOrder(opts);
    var cs, ps := Choices(opts), SelectedPositions(opts);
    forall c | c in cs
      ensures exists i :: 0 <= i < |opts| && opts[i].isSelected && opts[i].index == c
    {
      var k :| 0 <= k < |cs| && cs[k] == c;
      assert opts[ps[k]].index == c;
    }
    forall i | 0 <= i < |opts| && opts[i].isSelected
      ensures opts[i].index in cs
    {
      var k :| 0 <= k < |ps| && ps[k] == i;
      assert cs[k] == opts[i].index;
    }
  }

  /**
   * Pressing the vote button. With no option item, or on a single-choice poll,
   * nothing happens; otherwise the poll is marked voting and the ticked
   * options' indices are sent. There is no guard on a vote already in flight.
   */
  function VoteButton(s: PollState): (r: Step)
    ensures r.state.options == s.options && r.state.multiple == s.multiple
    ensures (|s.options| == 0 || !s.multiple) ==> r == Step(s, None)
    ensures (|s.options| > 0 && s.multiple) ==> r.state.isVoting && r.request == Some(Choices(s.options))
  {
    if |s.options| == 0 || !s.multiple then Step(s, None)
    else Step(s.(isVoting := true), Some(Choices(s.options)))
  }

  /**
   * The poll once the vote request has answered: a request that failed resets
   * `isVoting`; the selections stay as the handler left them.
   */
  function Settle(s: PollState, request: Option<seq<int>>, succeeded: bool): (r: PollState)
    ensures r.options == s.options && r.multiple == s.multiple
    ensures request.Some? && !succeeded ==> !r.isVoting
    ensures request.None? || succeeded ==> r == s
  {
    if request.Some? && !succeeded then s.(isVoting := false) else s
  }

  /** A failed single-choice vote leaves the poll not voting, with the tap's selections kept. */
  lemma FailedTapVoteRollsBack(s: PollState, t: nat)
    requires !s.isVoting && t < |s.options| && !s.multiple
    ensures var step := Tap(s, t);
            var after := Settle(step.state, step.request, false);
            && !after.isVoting
            && after.options == step.state.options
            && after.options[t].isSelected == !s.options[t].isSelected
  {
  }

  /**
   * Tapping an already ticked option of a single-choice poll unticks it, yet
   * the vote request still carries that option's index.
   */
  lemma RetapSendsDeselectedChoice(s: PollState, t: nat)
    requires !s.isVoting && t < |s.options| && !s.multiple && s.options[t].isSelected
    ensures !Tap(s, t).state.options[t].isSelected
    ensures Tap(s, t).request == Some([s.options[t].index])
  {
  }

  /** The vote button sends a request even when a vote is already in flight. */
  lemma VoteButtonWhileVoting(s: PollState)
    requires s.isVoting && s.multiple && |s.options| > 0
    ensures VoteButton(s).request.Some?
  {
  }

  /** A poll as the managed object context holds it: its options are updated in place. */
  class Poll {
    var options: array<PollOption>
    var multiple: bool
    var isVoting: bool

    function State(): PollState
      reads this, options
    {
      PollState(options[..], multiple, isVoting)
    }

    constructor (opts: seq<PollOption>, multiple: bool)
      ensures State() == PollState(opts, multiple, false)
      ensures fresh(options)
    {
      options := new PollOption[|opts|](i requires 0 <= i < |opts| => opts[i]);
      this.multiple := multiple;
      isVoting := false;
    }

    /**
     * The option-tap handler: the in-place update of `Tap`, then the vote
     * request for a single-choice poll, and the rollback when it fails.
     */
    method SelectOption(t: nat, voteSucceeds: bool) returns (request: Option<seq<int>>)
      modifies this`isVoting, options
      ensures var step := Tap(old(State()), t);
              request == step.request && State() == Settle(step.state, step.request, voteSucceeds)
    {
      if t >= options.Length || isVoting {
        request := None;
        return;
      }
      var choice: Option<int> := None;
      if !multiple {
        for i := 0 to options.Length
          invariant forall k :: 0 <= k < i ==>
                      options[k] == if k == t then old(options[k]) else old(options[k]).(isSelected := false)
          invariant forall k :: i <= k < options.Length ==> options[k] == old(options[k])
        {
          if i != t {
            options[i] := options[i].(isSelected := false);
          }
        }
        isVoting := true;
        choice := Some(options[t].index);
      }
      options[t] := Toggled(options[t]);
      ghost var cleared := if multiple then old(options[..]) else DeselectOthers(old(options[..]), t);
      assert options[..] == cleared[t := Toggled(cleared[t])];
      if choice.Some? {
        request := Some([choice.value]);
        if !voteSucceeds {
          isVoting := false;
        }
      } else {
        request := None;
      }
    }

    /**
     * The vote-button handler: `VoteButton`'s update and request, and the
     * rollback when the request fails.
     */
    method PressVote(voteSucceeds: bool) returns (request: Option<seq<int>>)
      modifies this`isVoting
      ensures var step := VoteButton(old(State()));
              request == step.request && State() == Settle(step.state, step.request, voteSucceeds)
    {
      if options.Length == 0 || !multiple {
        request := None;
        return;
      }
      isVoting := true;
      request := Some(Choices(options[..]));
      if !voteSucceeds {
        isVoting := false;
      }
    }
  }
}
