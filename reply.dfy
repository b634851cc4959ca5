/**
 * Classifying the terminal's reply to a probe.  `IMAGE_REGEX` and
 * `LOCAL_REGEX` (`/_Gi=69[;,]OK/` and `/_Gi=31[;,]OK/`) hold of a reply when
 * it contains `_Gi=`, the probe's image id, `;` or `,`, then `OK` somewhere.
 */
module Reply {

  /** The image id of the remote probe. */
  const RemoteId := "69"
  /** The image id of the local probe. */
  const LocalId := "31"

  /** `s` begins with the success marker for image `id`. */
  predicate StartsWithMarker(s: string, id: string) {
    var n := |id|;
    |s| >= n + 7 && s[..4] == "_Gi=" && s[4..4 + n] == id
    && (s[4 + n] == ';' || s[4 + n] == ',') && s[5 + n..7 + n] == "OK"
  }

  /** The regular expression's meaning: the marker occurs at some position. */
  ghost predicate ContainsMarker(reply: string, id: string) {
    exists i :: 0 <= i <= |reply| && StartsWithMarker(reply[i..], id)
  }

  /** The search the regular expression engine performs, left to right. */
  function HasMarker(reply: string, id: string): (found: bool)
    ensures found <==> ContainsMarker(reply, id)
    decreases |reply|
  {
    if |reply| == 0 then false
    else if StartsWithMarker(reply, id) then
      assert reply[0..] == reply;
      true
    else
      var rest := HasMarker(reply[1..], id);
      assert rest ==> ContainsMarker(reply, id) by {
        if rest {
          var j :| 0 <= j <= |reply[1..]| && StartsWithMarker(reply[1..][j..], id);
          assert reply[1..][j..] == reply[j + 1..];
        }
      }
      assert ContainsMarker(reply, id) ==> rest by {
        if ContainsMarker(reply, id) {
          var i :| 0 <= i <= |reply| && StartsWithMarker(reply[i..], id);
          assert i != 0 by { assert reply[0..] == reply; }
          assert reply[1..][i - 1..] == reply[i..];
        }
      }
      rest
  }

  /** What the remote probe returns for the bytes captured in its window. */
  function RemoteSupported(reply: string): bool {
    HasMarker(reply, RemoteId)
  }

  /** What the local probe returns for the bytes captured in its window. */
  function LocalSupported(reply: string): bool {
    HasMarker(reply, LocalId)
  }

  /** The marker for `id`, with `;` as separator, as Kitty sends it. */
  function Marker(id: string): string {
    "_Gi=" + id + ";OK"
  }

  /** Any reply containing the marker, wherever, is recognised. */
  lemma MarkerRecognised(before: string, id: string, after: string)
    ensures HasMarker(before + Marker(id) + after, id)
  {
    var reply := before + Marker(id) + after;
    var n := |id|;
    var s := reply[|before|..];
    assert s == Marker(id) + after;
    assert s[..4] == "_Gi=" && s[4..4 + n] == id && s[4 + n] == ';' && s[5 + n..7 + n] == "OK";
    assert StartsWithMarker(s, id);
  }

  /** A reply holding only the other probe's marker does not count. */
  lemma MarkersDistinct()
    ensures !HasMarker(Marker(LocalId), RemoteId)
    ensures !HasMarker(Marker(RemoteId), LocalId)
  {
    forall i | 0 <= i <= |Marker(LocalId)|
      ensures !StartsWithMarker(Marker(LocalId)[i..], RemoteId)
    {
      if 0 < i { assert |Marker(LocalId)[i..]| < 9; }
      else { assert Marker(LocalId)[0..][4..6] == LocalId; }
    }
    forall i | 0 <= i <= |Marker(RemoteId)|
      ensures !StartsWithMarker(Marker(RemoteId)[i..], LocalId)
    {
      if 0 < i { assert |Marker(RemoteId)[i..]| < 9; }
      else { assert Marker(RemoteId)[0..][4..6] == RemoteId; }
    }
  }
}
