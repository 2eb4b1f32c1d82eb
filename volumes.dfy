/**
 * The attached-volume list of an instance, as the attach and detach
 * handlers change it: attaching appends a record, detaching removes the
 * record that matches on volume id, remote device and converted local
 * device, and fails when there is none.
 */
module Volumes {
  import opened NcTypes

  /** Removes the first record equal to `v` (the same volume id, remote
      device and local device), keeping the others in order; None when the
      list holds no such record. */
  function FreeVolume(vols: seq<Volume>, v: Volume): (r: Option<seq<Volume>>)
    ensures r.Some? <==> v in vols
    ensures r.Some? ==> |r.value| == |vols| - 1
    ensures r.Some? ==> multiset(r.value) == multiset(vols) - multiset{v}
  {
    if vols == [] then None
    else
      assert vols == [vols[0]] + vols[1..];
      if vols[0] == v then Some(vols[1..])
      else
        match FreeVolume(vols[1..], v)
        case None => None
        case Some(rest) => Some([vols[0]] + rest)
  }

  /** One step of removal past a head that does not match. */
  lemma FreeVolumeSkipsHead(vols: seq<Volume>, v: Volume)
    requires vols != [] && vols[0] != v && v in vols[1..]
    ensures FreeVolume(vols, v) == Some([vols[0]] + FreeVolume(vols[1..], v).value)
  {
  }

  /** Cutting position k out of a list's tail and putting the head back
      is cutting position k + 1 out of the list. */
  lemma ConsCut<T>(s: seq<T>, k: nat)
    requires k + 1 < |s|
    ensures [s[0]] + (s[1..][..k] + s[1..][k + 1..]) == s[..k + 1] + s[k + 2..]
  {
    assert s[..k + 1] == [s[0]] + s[1..][..k];
    assert s[k + 2..] == s[1..][k + 1..];
  }

  /** Removal takes out the first equal record, at whatever position `i`
      it sits, and keeps every other record in its order. */
  lemma {:induction false} FreeVolumeRemovesFirst(vols: seq<Volume>, v: Volume, i: nat)
    requires i < |vols| && vols[i] == v
    requires forall j :: 0 <= j < i ==> vols[j] != v
    ensures FreeVolume(vols, v) == Some(vols[..i] + vols[i + 1..])
  {
    if i == 0 {
      assert vols[..0] + vols[1..] == vols[1..];
    } else {
      var tail := vols[1..];
      assert tail[i - 1] == v;
      calc {
        FreeVolume(vols, v);
        == { FreeVolumeSkipsHead(vols, v); }
        Some([vols[0]] + FreeVolume(tail, v).value);
        == { FreeVolumeRemovesFirst(tail, v, i - 1); }
        Some([vols[0]] + (tail[..i - 1] + tail[i..]));
        == { ConsCut(vols, i - 1); }
        Some(vols[..i] + vols[i + 1..]);
      }
    }
  }

  /** Appending at the end commutes with dropping the head. */
  lemma TailOfAppend<T>(s: seq<T>, x: T)
    requires s != []
    ensures (s + [x])[1..] == s[1..] + [x]
  {
  }

  /** Detaching a record that was just appended, when the list held no
      equal record before, gives back exactly the list before the append. */
  lemma {:induction false} FreeAppendedRestores(vols: seq<Volume>, v: Volume)
    requires v !in vols
    ensures FreeVolume(vols + [v], v) == Some(vols)
  {
    if vols != [] {
      assert v !in vols[1..] && vols[0] != v;
      calc {
        FreeVolume(vols + [v], v);
        == { FreeVolumeSkipsHead(vols + [v], v); TailOfAppend(vols, v); }
        Some([vols[0]] + FreeVolume(vols[1..] + [v], v).value);
        == { FreeAppendedRestores(vols[1..], v); }
        Some([vols[0]] + vols[1..]);
        == { assert vols == [vols[0]] + vols[1..]; }
        Some(vols);
      }
    }
  }

  /** When the list already held an equal record, detaching after an
      append removes the older record, and the new one ends up last. */
  lemma {:induction false} FreeAppendedWhenPresent(vols: seq<Volume>, v: Volume)
    requires v in vols
    ensures FreeVolume(vols + [v], v) == Some(FreeVolume(vols, v).value + [v])
  {
    TailOfAppend(vols, v);
    if vols[0] != v {
      assert vols == [vols[0]] + vols[1..];
      FreeAppendedWhenPresent(vols[1..], v);
      FreeVolumeSkipsHead(vols, v);
      FreeVolumeSkipsHead(vols + [v], v);
      var rest := FreeVolume(vols[1..], v).value;
      assert [vols[0]] + (rest + [v]) == ([vols[0]] + rest) + [v];
    }
  }

  /** Append-then-detach always succeeds and keeps the same records,
      whether or not an equal record was attached before. */
  lemma FreeAppendedKeepsRecords(vols: seq<Volume>, v: Volume)
    ensures FreeVolume(vols + [v], v).Some?
    ensures multiset(FreeVolume(vols + [v], v).value) == multiset(vols)
  {
    assert (vols + [v])[|vols|] == v;
    assert multiset(vols + [v]) == multiset(vols) + multiset{v};
  }
}
