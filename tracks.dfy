/**
 * The point list the app builds from a parsed GPX file: tracks hold segments,
 * segments hold points, and the app keeps only each point's longitude and
 * latitude, in recording order (app.py:29-34).
 */
module Tracks {

  /** A track point reduced to (longitude, latitude), in degrees. */
  datatype Point = Point(lon: real, lat: real)

  type Segment = seq<Point>
  type Track = seq<Segment>

  /** The elements of ss[0], then those of ss[1], and so on. */
  function Concat<T>(ss: seq<seq<T>>): seq<T>
  {
    if |ss| == 0 then [] else ss[0] + Concat(ss[1..])
  }

  /** The sum of the lengths of the sequences in ss. */
  function TotalLength<T>(ss: seq<seq<T>>): nat
  {
    if |ss| == 0 then 0 else |ss[0]| + TotalLength(ss[1..])
  }

  /** The number of points in all segments of all tracks. */
  function PointCount(tracks: seq<Track>): nat
  {
    if |tracks| == 0 then 0 else TotalLength(tracks[0]) + PointCount(tracks[1..])
  }

  /** Every point of every segment of every track, in track, then segment, then point order. */
  function Flatten(tracks: seq<Track>): seq<Point>
  {
    if |tracks| == 0 then [] else Concat(tracks[0]) + Flatten(tracks[1..])
  }

  lemma {:induction false} ConcatLength<T>(ss: seq<seq<T>>)
    ensures |Concat(ss)| == TotalLength(ss)
  {
    if |ss| > 0 {
      ConcatLength(ss[1..]);
    }
  }

  /** Element k of ss[i] sits in the concatenation right after all elements of ss[..i]. */
  lemma {:induction false} ConcatAt<T>(ss: seq<seq<T>>, i: nat, k: nat)
    requires i < |ss| && k < |ss[i]|
    ensures TotalLength(ss[..i]) + k < |Concat(ss)|
    ensures Concat(ss)[TotalLength(ss[..i]) + k] == ss[i][k]
  {
    ConcatLength(ss[1..]);
    if i == 0 {
      assert ss[..0] == [];
    } else {
      ConcatAt(ss[1..], i - 1, k);
      assert ss[..i][1..] == ss[1..][..i - 1];
    }
  }

  lemma {:induction false} ConcatMember<T>(ss: seq<seq<T>>, x: T)
    ensures x in Concat(ss) <==> exists i :: 0 <= i < |ss| && x in ss[i]
  {
    if |ss| > 0 {
      ConcatMember(ss[1..], x);
      if x in Concat(ss[1..]) {
        var i :| 0 <= i < |ss[1..]| && x in ss[1..][i];
        assert x in ss[i + 1];
      }
      if exists i :: 0 <= i < |ss| && x in ss[i] {
        var i :| 0 <= i < |ss| && x in ss[i];
        if i > 0 {
          assert x in ss[1..][i - 1];
        }
      }
    }
  }

  /** The point list has exactly as many points as the GPX file's segments hold. */
  lemma {:induction false} FlattenLength(tracks: seq<Track>)
    ensures |Flatten(tracks)| == PointCount(tracks)
  {
    if |tracks| > 0 {
      ConcatLength(tracks[0]);
      FlattenLength(tracks[1..]);
    }
  }

  /**
   * Point k of segment s of track t is found after the points of all earlier
   * tracks and of all earlier segments of track t: track, then segment, then
   * point order.
   */
  lemma {:induction false} FlattenAt(tracks: seq<Track>, t: nat, s: nat, k: nat)
    requires t < |tracks| && s < |tracks[t]| && k < |tracks[t][s]|
    ensures PointCount(tracks[..t]) + TotalLength(tracks[t][..s]) + k < |Flatten(tracks)|
    ensures Flatten(tracks)[PointCount(tracks[..t]) + TotalLength(tracks[t][..s]) + k] == tracks[t][s][k]
  {
    FlattenLength(tracks[1..]);
    ConcatLength(tracks[0]);
    if t == 0 {
      assert tracks[..0] == [];
      ConcatAt(tracks[0], s, k);
    } else {
      FlattenAt(tracks[1..], t - 1, s, k);
      assert tracks[..t][1..] == tracks[1..][..t - 1];
    }
  }

  /** Appending a track appends its points: the order of tracks is kept. */
  lemma {:induction false} FlattenAppend(a: seq<Track>, b: seq<Track>)
    ensures Flatten(a + b) == Flatten(a) + Flatten(b)
  {
    if |a| == 0 {
      assert a + b == b;
    } else {
      FlattenAppend(a[1..], b);
      assert (a + b)[1..] == a[1..] + b;
    }
  }

  /** A point is in the list exactly when some segment of some track holds it. */
  lemma {:induction false} FlattenMember(tracks: seq<Track>, p: Point)
    ensures p in Flatten(tracks) <==>
            exists t, s :: 0 <= t < |tracks| && 0 <= s < |tracks[t]| && p in tracks[t][s]
  {
    if |tracks| > 0 {
      FlattenMember(tracks[1..], p);
      ConcatMember(tracks[0], p);
      if p in Flatten(tracks[1..]) {
        var t, s :| 0 <= t < |tracks[1..]| && 0 <= s < |tracks[1..][t]| && p in tracks[1..][t][s];
        assert p in tracks[t + 1][s];
      }
      if exists t, s :: 0 <= t < |tracks| && 0 <= s < |tracks[t]| && p in tracks[t][s] {
        var t, s :| 0 <= t < |tracks| && 0 <= s < |tracks[t]| && p in tracks[t][s];
        if t > 0 {
          assert p in tracks[1..][t - 1][s];
        }
      }
    }
  }
}
