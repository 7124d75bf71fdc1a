/**
 * The coordinate list of the matching request (app.py:42): each point printed
 * as its longitude, a comma and its latitude, the fields separated by ';'.
 * How a float is printed is a parameter `fmt`; Python's float formatting
 * never produces ',' or ';', which is all the model needs of it.
 */
module Request {
  import opened Tracks

  /** Python's `sep.join(fields)`. */
  function Join(fields: seq<string>, sep: char): string
  {
    if |fields| == 0 then ""
    else if |fields| == 1 then fields[0]
    else fields[0] + [sep] + Join(fields[1..], sep)
  }

  /** Python's `s.split(sep)`: the pieces between separators, at least one. */
  function Split(s: string, sep: char): (parts: seq<string>)
    ensures |parts| > 0
    decreases |s|
  {
    if |s| == 0 then [""]
    else
      var rest := Split(s[1..], sep);
      if s[0] == sep then [""] + rest else [[s[0]] + rest[0]] + rest[1..]
  }

  /** How many times c occurs in s. */
  function Occurrences(s: string, c: char): nat
  {
    if |s| == 0 then 0 else (if s[0] == c then 1 else 0) + Occurrences(s[1..], c)
  }

  /** No field contains the separator. */
  ghost predicate Separable(fields: seq<string>, sep: char)
  {
    forall i :: 0 <= i < |fields| ==> sep !in fields[i]
  }

  /** A float formatter whose output never contains the request's two delimiters. */
  ghost predicate PlainFormatter(fmt: real -> string)
  {
    forall x :: ',' !in fmt(x) && ';' !in fmt(x)
  }

  /** One point as its formatted longitude, a comma, and its formatted latitude. */
  function PointField(p: Point, fmt: real -> string): string
  {
    fmt(p.lon) + "," + fmt(p.lat)
  }

  /** The `coords` part of the matching request. */
  function CoordinateString(pts: seq<Point>, fmt: real -> string): string
  {
    Join(seq(|pts|, i requires 0 <= i < |pts| => PointField(pts[i], fmt)), ';')
  }

  // ---------------------------------------------------------------------------
  // Join and Split are inverse

  lemma {:induction false} SplitPlain(f: string, sep: char)
    requires sep !in f
    ensures Split(f, sep) == [f]
  {
    if |f| > 0 {
      SplitPlain(f[1..], sep);
      assert [f[0]] + f[1..] == f;
    }
  }

  lemma {:induction false} SplitFirst(f: string, t: string, sep: char)
    requires sep !in f
    ensures Split(f + [sep] + t, sep) == [f] + Split(t, sep)
  {
    if |f| == 0 {
      assert f + [sep] + t == [sep] + t;
      assert ([sep] + t)[1..] == t;
    } else {
      SplitFirst(f[1..], t, sep);
      assert (f + [sep] + t)[1..] == f[1..] + [sep] + t;
      assert [f[0]] + f[1..] == f;
    }
  }

  /** Splitting a joined list at the separator gives back the fields. */
  lemma {:induction false} SplitJoin(fields: seq<string>, sep: char)
    requires |fields| > 0 && Separable(fields, sep)
    ensures Split(Join(fields, sep), sep) == fields
  {
    if |fields| == 1 {
      assert sep !in fields[0];
      SplitPlain(fields[0], sep);
    } else {
      assert sep !in fields[0];
      SplitJoin(fields[1..], sep);
      SplitFirst(fields[0], Join(fields[1..], sep), sep);
      assert [fields[0]] + fields[1..] == fields;
    }
  }

  lemma {:induction false} OccurrencesAppend(a: string, b: string, c: char)
    ensures Occurrences(a + b, c) == Occurrences(a, c) + Occurrences(b, c)
  {
    if |a| > 0 {
      OccurrencesAppend(a[1..], b, c);
      assert (a + b)[1..] == a[1..] + b;
    } else {
      assert a + b == b;
    }
  }

  lemma {:induction false} OccurrencesAbsent(s: string, c: char)
    requires c !in s
    ensures Occurrences(s, c) == 0
  {
    if |s| > 0 {
      OccurrencesAbsent(s[1..], c);
    }
  }

  /** A join of n separable fields holds n - 1 separators (none for no fields). */
  lemma {:induction false} JoinSeparators(fields: seq<string>, sep: char)
    requires Separable(fields, sep)
    ensures Occurrences(Join(fields, sep), sep) == if |fields| == 0 then 0 else |fields| - 1
  {
    if |fields| == 1 {
      OccurrencesAbsent(fields[0], sep);
    } else if |fields| > 1 {
      JoinSeparators(fields[1..], sep);
      OccurrencesAbsent(fields[0], sep);
      OccurrencesAppend(fields[0] + [sep], Join(fields[1..], sep), sep);
      OccurrencesAppend(fields[0], [sep], sep);
    }
  }

  // ---------------------------------------------------------------------------
  // The coordinate string

  /**
   * The coordinate string holds one "lon,lat" field per point, in point order:
   * splitting it at ';' and each piece at ',' recovers the two formatted
   * coordinates of every point. It has |pts| - 1 semicolons, and it is empty
   * exactly when there are no points.
   */
  lemma CoordinateStringFields(pts: seq<Point>, fmt: real -> string)
    requires PlainFormatter(fmt)
    ensures CoordinateString(pts, fmt) == "" <==> |pts| == 0
    ensures Occurrences(CoordinateString(pts, fmt), ';') == if |pts| == 0 then 0 else |pts| - 1
    ensures |pts| > 0 ==> |Split(CoordinateString(pts, fmt), ';')| == |pts|
    ensures |pts| > 0 ==> forall i :: 0 <= i < |pts| ==>
              Split(Split(CoordinateString(pts, fmt), ';')[i], ',') == [fmt(pts[i].lon), fmt(pts[i].lat)]
  {
    var fields := seq(|pts|, i requires 0 <= i < |pts| => PointField(pts[i], fmt));
    forall i | 0 <= i < |pts|
      ensures ';' !in fields[i]
      ensures Split(fields[i], ',') == [fmt(pts[i].lon), fmt(pts[i].lat)]
    {
      var lon, lat := fmt(pts[i].lon), fmt(pts[i].lat);
      assert fields[i] == lon + [','] + lat;
      SplitFirst(lon, lat, ',');
      SplitPlain(lat, ',');
    }
    JoinSeparators(fields, ';');
    if |pts| > 0 {
      SplitJoin(fields, ';');
      assert ',' in fields[0];
    }
  }
}
