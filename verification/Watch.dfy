/** The daemon's watch on its VPP connection: when one watch cycle runs a Sync. */
module Watch {
  import opened Wrappers

  /** reconcileDebounce, in milliseconds. */
  const DEBOUNCE: int := 1000

  datatype LinkState = Connected | Disconnected | Failed | Other

  /** What the select of the loop picks, and when. */
  datatype Input =
    | Cancel(time: int)
    | Close(time: int)
    | Link(time: int, state: LinkState)
    | Fire(time: int)
    | Tick(time: int)

  datatype Outcome = Running | Stopped | StreamClosed | ConnectionFailed

  // ----- The cycle, seen from its history

  predicate IsLink(e: Input, state: LinkState) {
    e.Link? && e.state == state
  }

  predicate Ends(e: Input) {
    e.Cancel? || e.Close? || IsLink(e, Failed)
  }

  /** No input before the k-th ends the cycle. */
  ghost predicate Open(inputs: seq<Input>, k: nat)
    requires k <= |inputs|
  {
    forall i :: 0 <= i < k ==> !Ends(inputs[i])
  }

  /** Of the Connected and Disconnected events before the k-th input, the latest is Connected. */
  ghost predicate Up(inputs: seq<Input>, k: nat)
    requires k <= |inputs|
  {
    exists c :: 0 <= c < k && IsLink(inputs[c], Connected) && forall i :: c < i < k ==> !IsLink(inputs[i], Disconnected)
  }

  /** The k-th input makes the cycle run a Sync. */
  ghost predicate SyncAt(inputs: seq<Input>, k: nat)
    requires k < |inputs|
  {
    Open(inputs, k) && (inputs[k].Fire? || (inputs[k].Tick? && Up(inputs, k)))
  }

  // ----- The debounce timer: Reset arms it, Stop and its own expiry disarm it

  function Rearmed(deadline: Option<int>, e: Input): Option<int> {
    if IsLink(e, Connected) then Some(e.time + DEBOUNCE)
    else if IsLink(e, Disconnected) || e.Fire? then None
    else deadline
  }

  function Deadline(inputs: seq<Input>, k: nat): Option<int>
    requires k <= |inputs|
  {
    if k == 0 then None else Rearmed(Deadline(inputs, k - 1), inputs[k - 1])
  }

  /** Time does not run backwards, and the timer fires only when armed and due. */
  ghost predicate Possible(inputs: seq<Input>) {
    && (forall i, j :: 0 <= i < j < |inputs| ==> inputs[i].time <= inputs[j].time)
    && forall k :: 0 <= k < |inputs| && inputs[k].Fire? ==> Deadline(inputs, k).Some? && Deadline(inputs, k).value <= inputs[k].time
  }

  // ----- The cycle, as the code runs it

  lemma UpStep(inputs: seq<Input>, k: nat)
    requires k < |inputs|
    ensures Up(inputs, k + 1) <==> IsLink(inputs[k], Connected) || (Up(inputs, k) && !IsLink(inputs[k], Disconnected))
  {
    if IsLink(inputs[k], Connected) {
      assert Up(inputs, k + 1);
    }
    if Up(inputs, k) && !IsLink(inputs[k], Disconnected) {
      var c :| 0 <= c < k && IsLink(inputs[c], Connected) && forall i :: c < i < k ==> !IsLink(inputs[i], Disconnected);
      assert forall i :: c < i < k + 1 ==> !IsLink(inputs[i], Disconnected);
    }
    if Up(inputs, k + 1) && !IsLink(inputs[k], Connected) {
      var c :| 0 <= c < k + 1 && IsLink(inputs[c], Connected) && forall i :: c < i < k + 1 ==> !IsLink(inputs[i], Disconnected);
      assert c < k;
    }
  }

  /** The event loop, over the inputs it is given; `syncs` are the inputs at which it syncs. */
  method WatchOnce(inputs: seq<Input>) returns (outcome: Outcome, syncs: seq<nat>)
    requires Possible(inputs)
    ensures forall j, k :: 0 <= j < k < |syncs| ==> syncs[j] < syncs[k]
    ensures forall k: nat :: k in syncs <==> k < |inputs| && SyncAt(inputs, k)
    ensures outcome == Running <==> Open(inputs, |inputs|)
    ensures outcome == Stopped <==> exists k :: 0 <= k < |inputs| && Open(inputs, k) && inputs[k].Cancel?
    ensures outcome == StreamClosed <==> exists k :: 0 <= k < |inputs| && Open(inputs, k) && inputs[k].Close?
  {
    outcome, syncs := Running, [];
    var connected, deadline := false, None;
    var i := 0;
    while i < |inputs|
      invariant 0 <= i <= |inputs| && outcome == Running && Open(inputs, i)
      invariant connected <==> Up(inputs, i)
      invariant deadline == Deadline(inputs, i)
      invariant forall j :: 0 <= j < |syncs| ==> syncs[j] < i
      invariant forall j, k :: 0 <= j < k < |syncs| ==> syncs[j] < syncs[k]
      invariant forall k: nat :: k in syncs <==> k < i && SyncAt(inputs, k)
    {
      UpStep(inputs, i);
      assert SyncAt(inputs, i) <==> inputs[i].Fire? || (inputs[i].Tick? && connected);
      hide Up, SyncAt, Possible;
      match inputs[i] {
        case Cancel(_) =>
          return Stopped, syncs;
        case Close(_) =>
          return StreamClosed, syncs;
        case Link(time, state) =>
          match state {
            case Connected =>
              connected := true;
              deadline := Some(time + DEBOUNCE);
            case Disconnected =>
              connected := false;
              deadline := None;
            case Failed =>
              return ConnectionFailed, syncs;
            case Other =>
          }
        case Fire(time) =>
          deadline := None;
          syncs := syncs + [i];
        case Tick(_) =>
          if connected {
            syncs := syncs + [i];
          }
      }
      i := i + 1;
    }
  }

  // ----- What it does

  /** The timer is armed only while the connection is up, since the latest Connected event. */
  lemma {:induction false} ArmedSince(inputs: seq<Input>, k: nat) returns (c: nat)
    requires k <= |inputs| && Deadline(inputs, k).Some?
    ensures c < k && IsLink(inputs[c], Connected) && Deadline(inputs, k).value == inputs[c].time + DEBOUNCE
    ensures forall i :: c < i < k ==> !inputs[i].Fire? && !IsLink(inputs[i], Connected) && !IsLink(inputs[i], Disconnected)
  {
    c := k - 1;
    if !IsLink(inputs[c], Connected) {
      c := ArmedSince(inputs, k - 1);
    }
  }

  /** Every Sync runs with the connection up. */
  lemma SyncsOnlyWhenUp(inputs: seq<Input>, k: nat)
    requires Possible(inputs) && k < |inputs| && SyncAt(inputs, k)
    ensures Up(inputs, k)
  {
    if inputs[k].Fire? {
      var c := ArmedSince(inputs, k);
    }
  }

  /** The timer fires a quiet period after the latest Connected event, and once for it. */
  lemma FiresAfterQuiet(inputs: seq<Input>, k: nat) returns (c: nat)
    requires Possible(inputs) && k < |inputs| && inputs[k].Fire?
    ensures c < k && IsLink(inputs[c], Connected) && inputs[k].time >= inputs[c].time + 1000
    ensures forall i :: c < i < k ==> !inputs[i].Fire? && !IsLink(inputs[i], Connected) && !IsLink(inputs[i], Disconnected)
  {
    c := ArmedSince(inputs, k);
  }

  /** Inputs a..b start and end with Connected events, each less than the quiet period after the one before. */
  ghost predicate Burst(inputs: seq<Input>, a: nat, b: nat) {
    && a <= b < |inputs| && IsLink(inputs[a], Connected) && IsLink(inputs[b], Connected)
    && forall c :: a <= c < b && IsLink(inputs[c], Connected) ==>
         exists n :: c < n <= b && IsLink(inputs[n], Connected) && inputs[n].time < inputs[c].time + DEBOUNCE
  }

  /** Within a burst no input is a quiet period after the latest Connected event. */
  lemma GapInBurst(inputs: seq<Input>, a: nat, b: nat, c: nat, k: nat)
    requires Possible(inputs) && Burst(inputs, a, b) && a <= c < k < b && IsLink(inputs[c], Connected)
    requires forall i :: c < i < k ==> !IsLink(inputs[i], Connected)
    requires inputs[k].Fire?
    ensures inputs[k].time < inputs[c].time + DEBOUNCE
  {
    var n :| c < n <= b && IsLink(inputs[n], Connected) && inputs[n].time < inputs[c].time + DEBOUNCE;
    assert n > k;
  }

  lemma QuietInBurst(inputs: seq<Input>, a: nat, b: nat, k: nat)
    requires Possible(inputs) && Burst(inputs, a, b) && a < k < b
    ensures !inputs[k].Fire?
  {
    if inputs[k].Fire? {
      assert IsLink(inputs[a], Connected);
      var c := FiresAfterQuiet(inputs, k);
      hide Possible, Burst;
      GapInBurst(inputs, a, b, c, k);
    }
  }

  /** A burst of Connected events leads to at most one debounced Sync before the next Connected event. */
  lemma BurstSyncsOnce(inputs: seq<Input>, a: nat, b: nat, end: nat, j: nat, k: nat)
    requires Possible(inputs) && Burst(inputs, a, b) && b < end <= |inputs|
    requires forall i :: b < i < end ==> !IsLink(inputs[i], Connected)
    requires a <= j < end && a <= k < end && inputs[j].Fire? && inputs[k].Fire?
    ensures j == k && b < j
  {
    if j < b {
      QuietInBurst(inputs, a, b, j);
    }
    if k < b {
      QuietInBurst(inputs, a, b, k);
    }
    var cj := FiresAfterQuiet(inputs, j);
    var ck := FiresAfterQuiet(inputs, k);
    assert cj == b && ck == b;
  }

  // ----- States the switch does not name

  function Dropped(inputs: seq<Input>, k: nat): seq<Input>
    requires k < |inputs|
  {
    inputs[..k] + inputs[k + 1..]
  }

  lemma UpWithout(inputs: seq<Input>, k: nat, j: nat)
    requires k <= j < |inputs| && IsLink(inputs[k], Other)
    ensures Up(Dropped(inputs, k), j) <==> Up(inputs, j + 1)
    ensures Open(Dropped(inputs, k), j) <==> Open(inputs, j + 1)
    ensures Deadline(Dropped(inputs, k), j) == Deadline(inputs, j + 1)
    decreases j
  {
    var rest := Dropped(inputs, k);
    if j > k {
      assert rest[j - 1] == inputs[j];
      UpWithout(inputs, k, j - 1);
      UpStep(rest, j - 1);
      UpStep(inputs, j);
    } else {
      UpStep(inputs, k);
      UpPrefix(inputs, rest, k);
    }
  }

  lemma {:induction false} UpPrefix(a: seq<Input>, b: seq<Input>, j: nat)
    requires j <= |a| && j <= |b| && a[..j] == b[..j]
    ensures (Up(a, j) <==> Up(b, j)) && (Open(a, j) <==> Open(b, j)) && Deadline(a, j) == Deadline(b, j)
    decreases j
  {
    if j > 0 {
      assert a[j - 1] == a[..j][j - 1] && b[j - 1] == b[..j][j - 1];
      assert a[..j - 1] == a[..j][..j - 1] && b[..j - 1] == b[..j][..j - 1];
      UpPrefix(a, b, j - 1);
      UpStep(a, j - 1);
      UpStep(b, j - 1);
    }
  }

  /** In any trace an event with a state the switch does not name changes nothing: without it the
      cycle syncs at the same inputs, so a connection that goes into such a state goes on being
      synced. */
  lemma OtherStateInvisible(inputs: seq<Input>, k: nat, j: nat)
    requires k < |inputs| && IsLink(inputs[k], Other) && j < |inputs| && j != k
    ensures SyncAt(inputs, j) <==> SyncAt(Dropped(inputs, k), if j < k then j else j - 1)
  {
    var rest := Dropped(inputs, k);
    if j < k {
      assert rest[..j] == inputs[..j] && rest[j] == inputs[j];
      UpPrefix(inputs, rest, j);
    } else {
      assert rest[j - 1] == inputs[j];
      UpWithout(inputs, k, j - 1);
    }
  }
}
