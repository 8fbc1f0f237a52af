/** The subnet's membership as one metagraph read shows it (`cathedral_thin/validator.py`). */
module Metagraphs {
  import opened Prelude

  datatype Peer = Peer(uid: int, hotkey: Hotkey, coldkey: Coldkey)

  datatype Metagraph = Metagraph(uids: seq<int>, hotkeys: seq<Hotkey>, coldkeys: Option<seq<Coldkey>>, axonCount: nat)

  predicate DistinctPeers(peers: seq<Peer>) {
    forall i, j :: 0 <= i < j < |peers| ==> peers[i].uid != peers[j].uid && peers[i].hotkey != peers[j].hotkey
  }

  /** `None` where the source raises: no coldkeys, arrays of different lengths, or a repeated UID or hotkey. */
  function SnapshotPeers(m: Metagraph): (r: Option<seq<Peer>>)
    ensures r.Some? ==> DistinctPeers(r.value)
  {
    if m.coldkeys.None? then None
    else
      var coldkeys := m.coldkeys.value;
      if !(|m.uids| == |m.hotkeys| == |coldkeys| == m.axonCount) then None
      else if !NoRepeats(m.uids) || !NoRepeats(m.hotkeys) then None
      else Some(seq(|m.uids|, i requires 0 <= i < |m.uids| => Peer(m.uids[i], m.hotkeys[i], coldkeys[i])))
  }

  /** A read is a snapshot exactly when it has coldkeys, all its lists are as long as there are axons, and no UID or
      hotkey is repeated; it then lists them side by side. */
  lemma SnapshotExactly(m: Metagraph)
    ensures SnapshotPeers(m).Some? <==>
              && m.coldkeys.Some? && |m.uids| == |m.hotkeys| == |m.coldkeys.value| == m.axonCount
              && (forall i, j :: 0 <= i < j < |m.uids| ==> m.uids[i] != m.uids[j] && m.hotkeys[i] != m.hotkeys[j])
    ensures SnapshotPeers(m).Some? ==>
              |SnapshotPeers(m).value| == |m.uids|
              && forall i :: 0 <= i < |m.uids| ==>
                   SnapshotPeers(m).value[i] == Peer(m.uids[i], m.hotkeys[i], m.coldkeys.value[i])
  {
  }

  function HotkeyByUid(peers: seq<Peer>): map<int, Hotkey> {
    if peers == [] then map[]
    else HotkeyByUid(peers[..|peers| - 1])[peers[|peers| - 1].uid := peers[|peers| - 1].hotkey]
  }

  function ColdkeyOf(peers: seq<Peer>): map<Hotkey, Coldkey> {
    if peers == [] then map[]
    else ColdkeyOf(peers[..|peers| - 1])[peers[|peers| - 1].hotkey := peers[|peers| - 1].coldkey]
  }

  /** The lookup tables say what the snapshot lists. */
  lemma {:induction false} TablesList(peers: seq<Peer>, uid: int, hotkey: Hotkey, coldkey: Coldkey)
    requires DistinctPeers(peers)
    ensures uid in HotkeyByUid(peers) && HotkeyByUid(peers)[uid] == hotkey
            <==> exists i :: 0 <= i < |peers| && peers[i].uid == uid && peers[i].hotkey == hotkey
    ensures hotkey in ColdkeyOf(peers) && ColdkeyOf(peers)[hotkey] == coldkey
            <==> exists i :: 0 <= i < |peers| && peers[i].hotkey == hotkey && peers[i].coldkey == coldkey
  {
    if peers != [] {
      var front, last := peers[..|peers| - 1], peers[|peers| - 1];
      TablesList(front, uid, hotkey, coldkey);
      assert forall i :: 0 <= i < |front| ==> front[i] == peers[i];
    }
  }
}
