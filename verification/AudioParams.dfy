/** The key=value; text in which audio parameters are passed: its parser and its printer. */
module AudioParams {
  import opened Common

  type Params = map<string, string>

  /** Position of the first `d`, or |s|. */
  function Find(s: string, d: char): (i: nat)
    ensures i <= |s| && d !in s[..i]
    ensures i < |s| ==> s[i] == d
  {
    if s == [] || s[0] == d then 0 else 1 + Find(s[1..], d)
  }

  /** android::base::Split with one delimiter: always at least one piece, pieces may be empty. */
  function Split(s: string, d: char): (pieces: seq<string>)
    ensures pieces != []
    decreases |s|
  {
    var i := Find(s, d);
    if i == |s| then [s] else [s[..i]] + Split(s[i + 1..], d)
  }

  /** One segment: skipped if empty or without a key; anything after a second '=' is dropped. */
  function AddSegment(m: Params, segment: string): Params {
    var kv := Split(segment, '=');
    if segment == "" || kv[0] == "" then m
    else m[kv[0] := if |kv| > 1 then kv[1] else ""]
  }

  function AddSegments(segments: seq<string>): Params {
    if segments == [] then map[] else AddSegment(AddSegments(segments[..|segments| - 1]), segments[|segments| - 1])
  }

  function Parse(s: string): Params {
    AddSegments(Split(s, ';'))
  }

  method ParseAudioParams(params: string) returns (paramsMap: Params)
    ensures paramsMap == Parse(params)
  {
    var segments := Split(params, ';');
    paramsMap := map[];
    var i := 0;
    while i < |segments|
      invariant 0 <= i <= |segments| && paramsMap == AddSegments(segments[..i])
    {
      var segment := segments[i];
      assert segments[..i + 1][..i] == segments[..i];
      i := i + 1;
      if |segment| == 0 {
        continue;
      }
      var kv := Split(segment, '=');
      if kv[0] == "" {
        continue;
      }
      paramsMap := paramsMap[kv[0] := if |kv| > 1 then kv[1] else ""];
    }
    assert segments[..|segments|] == segments;
  }

  /** What `out_get_parameters` writes for the entries of a map, in its iteration order. */
  function Print(entries: seq<(string, string)>): string {
    if entries == [] then ""
    else Print(entries[..|entries| - 1]) + (entries[|entries| - 1].0 + "=" + entries[|entries| - 1].1 + ";")
  }

  method PrintParams(entries: seq<(string, string)>) returns (result: string)
    ensures result == Print(entries)
  {
    result := "";
    for i := 0 to |entries|
      invariant result == Print(entries[..i])
    {
      assert entries[..i + 1][..i] == entries[..i];
      result := result + (entries[i].0 + "=" + entries[i].1 + ";");
    }
    assert entries[..|entries|] == entries;
  }

  // ---------- Joining texts joins the maps ----------

  lemma {:induction false} FindAppend(a: string, d: char, b: string)
    ensures Find(a + [d] + b, d) == Find(a, d)
  {
    if a != [] && a[0] != d {
      FindAppend(a[1..], d, b);
      assert (a + [d] + b)[1..] == a[1..] + [d] + b;
    }
  }

  lemma {:induction false} CutAppend(a: string, d: char, b: string, i: nat)
    requires i <= |a|
    ensures (a + [d] + b)[..i] == a[..i]
    ensures (a + [d] + b)[i + 1..] == if i == |a| then b else a[i + 1..] + [d] + b
  {
  }

  lemma {:induction false} SplitAppend(a: string, d: char, b: string)
    ensures Split(a + [d] + b, d) == Split(a, d) + Split(b, d)
    decreases |a|
  {
    var i, whole := Find(a, d), a + [d] + b;
    FindAppend(a, d, b);
    CutAppend(a, d, b, i);
    SplitAt(whole, d, i);
    if i == |a| {
      assert whole[..i] == a;
    } else {
      var rest := a[i + 1..];
      SplitAppend(rest, d, b);
      SplitAt(a, d, i);
      Assoc(a[..i], Split(rest, d), Split(b, d));
    }
  }

  lemma {:induction false} SplitAt(s: string, d: char, i: nat)
    requires i == Find(s, d) < |s|
    ensures Split(s, d) == [s[..i]] + Split(s[i + 1..], d)
  {
  }

  lemma {:induction false} Assoc(x: string, y: seq<string>, z: seq<string>)
    ensures [x] + (y + z) == [x] + y + z
  {
  }

  lemma {:induction false} AddSegmentJoin(m: Params, n: Params, segment: string)
    ensures AddSegment(m + n, segment) == m + AddSegment(n, segment)
  {
  }

  lemma {:induction false} AddSegmentsJoin(x: seq<string>, y: seq<string>)
    ensures AddSegments(x + y) == AddSegments(x) + AddSegments(y)
  {
    if y == [] {
      assert x + y == x;
    } else {
      var y', last := y[..|y| - 1], y[|y| - 1];
      assert (x + y)[..|x + y| - 1] == x + y';
      AddSegmentsJoin(x, y');
      AddSegmentJoin(AddSegments(x), AddSegments(y'), last);
    }
  }

  /** For all texts: parsing two joined by ';' is parsing each, the second overriding the first. */
  lemma {:induction false} ParseJoin(a: string, b: string)
    ensures Parse(a + ";" + b) == Parse(a) + Parse(b)
  {
    SplitAppend(a, ';', b);
    AddSegmentsJoin(Split(a, ';'), Split(b, ';'));
  }

  // ---------- Printing and parsing back ----------

  predicate CleanText(s: string) { ';' !in s && '=' !in s }

  /** Keys that are not empty, and no ';' or '=' anywhere. */
  ghost predicate Clean(m: Params) {
    forall k :: k in m ==> k != "" && CleanText(k) && CleanText(m[k])
  }

  /** `entries` lists the map, each key once, in some order. */
  ghost predicate Lists(entries: seq<(string, string)>, m: Params) {
    && (forall i :: 0 <= i < |entries| ==> entries[i].0 in m && m[entries[i].0] == entries[i].1)
    && (forall i, j :: 0 <= i < j < |entries| ==> entries[i].0 != entries[j].0)
    && (forall k :: k in m ==> exists i :: 0 <= i < |entries| && entries[i].0 == k)
  }

  lemma {:induction false} FindAbsent(s: string, d: char)
    requires d !in s
    ensures Find(s, d) == |s|
  {
  }

  lemma {:induction false} ParseOne(k: string, v: string)
    requires k != "" && CleanText(k) && CleanText(v)
    ensures Parse(k + "=" + v) == map[k := v]
  {
    var s := k + "=" + v;
    assert ';' !in s;
    FindAbsent(s, ';');
    assert Split(s, ';') == [s];
    SplitAppend(k, '=', v);
    FindAbsent(k, '=');
    FindAbsent(v, '=');
    assert Split(s, '=') == [k, v];
    assert [s][..0] == [];
    assert AddSegments([s]) == AddSegment(map[], s);
  }

  lemma {:induction false} ParseEmpty()
    ensures Parse("") == map[]
  {
    assert Split("", ';') == [""] && [""][..0] == [];
    assert AddSegments([""]) == AddSegment(map[], "");
  }

  /** The map from the entries listed. */
  ghost function MapOf(entries: seq<(string, string)>): Params {
    if entries == [] then map[] else MapOf(entries[..|entries| - 1])[entries[|entries| - 1].0 := entries[|entries| - 1].1]
  }

  lemma {:induction false} PrintParses(entries: seq<(string, string)>, b: string)
    requires forall i :: 0 <= i < |entries| ==>
               entries[i].0 != "" && CleanText(entries[i].0) && CleanText(entries[i].1)
    ensures Parse(Print(entries) + b) == MapOf(entries) + Parse(b)
  {
    if entries == [] {
      assert "" + b == b;
    } else {
      var before := entries[..|entries| - 1];
      var (k, v) := entries[|entries| - 1];
      var one := k + "=" + v;
      PrintSnoc(entries, b);
      PrintParses(before, one + ";" + b);
      ParseJoin(one, b);
      ParseOne(k, v);
      Override(MapOf(before), k, v, Parse(b));
    }
  }

  lemma {:induction false} PrintSnoc(entries: seq<(string, string)>, b: string)
    requires entries != []
    ensures var (k, v) := entries[|entries| - 1];
      Print(entries) + b == Print(entries[..|entries| - 1]) + (k + "=" + v + ";" + b)
  {
  }

  lemma {:induction false} Override(m: Params, k: string, v: string, n: Params)
    ensures m + (map[k := v] + n) == m[k := v] + n
  {
  }

  lemma {:induction false} MapOfListing(entries: seq<(string, string)>, k: string)
    requires forall i, j :: 0 <= i < j < |entries| ==> entries[i].0 != entries[j].0
    ensures k in MapOf(entries) <==> exists i :: 0 <= i < |entries| && entries[i].0 == k
    ensures forall i :: 0 <= i < |entries| && entries[i].0 == k ==> k in MapOf(entries) && MapOf(entries)[k] == entries[i].1
  {
    if entries != [] {
      var n := |entries| - 1;
      MapOfListing(entries[..n], k);
      assert forall i :: 0 <= i < n ==> entries[..n][i] == entries[i];
      if k in MapOf(entries[..n]) {
        var i :| 0 <= i < n && entries[..n][i].0 == k;
        assert entries[i].0 == k;
      }
    }
  }

  /** Entries are written one after the other, each as key, '=', value and ';'. */
  lemma {:induction false} PrintJoin(x: seq<(string, string)>, y: seq<(string, string)>)
    ensures Print(x + y) == Print(x) + Print(y)
    ensures forall k: string, v: string :: Print([(k, v)]) == k + "=" + v + ";"
  {
    forall k: string, v: string ensures Print([(k, v)]) == k + "=" + v + ";" {
      assert [(k, v)][..0] == [];
    }
    if y == [] {
      assert x + y == x;
    } else {
      var n := |y| - 1;
      assert (x + y)[..|x| + n] == x + y[..n];
      PrintJoin(x, y[..n]);
    }
  }

  // ---------- What each segment contributes ----------

  /** The key of a segment is all of it before the first '='. */
  ghost predicate HasKey(segment: string, k: string) {
    '=' !in k && k <= segment && (|segment| == |k| || segment[|k|] == '=')
  }

  /** The value is what follows, up to a second '=' or the end; empty if there is no '='. */
  ghost predicate Holds(segment: string, k: string, v: string) {
    && HasKey(segment, k)
    && if |segment| == |k| then v == "" else HasKey(segment[|k| + 1..], v)
  }

  lemma {:induction false} FirstPiece(s: string, k: string)
    requires HasKey(s, k)
    ensures Split(s, '=') == [k] + (if |s| == |k| then [] else Split(s[|k| + 1..], '='))
  {
    FindAbsent(k, '=');
    if |s| > |k| {
      assert s == k + "=" + s[|k| + 1..];
      SplitAppend(k, '=', s[|k| + 1..]);
    } else {
      assert s == k;
    }
  }

  lemma {:induction false} FirstTwo(s: string, k: string, v: string)
    requires Holds(s, k, v)
    ensures var kv := Split(s, '='); kv[0] == k && if |kv| > 1 then kv[1] == v else v == ""
  {
    FirstPiece(s, k);
    if |s| > |k| {
      FirstPiece(s[|k| + 1..], v);
      assert Split(s, '=')[1] == Split(s[|k| + 1..], '=')[0];
    }
  }

  /** A segment sets its key to its value, and is skipped exactly if the key is empty. */
  lemma {:induction false} SegmentSets(m: Params, segment: string, k: string, v: string)
    requires Holds(segment, k, v)
    ensures AddSegment(m, segment) == if k == "" then m else m[k := v]
  {
    FirstTwo(segment, k, v);
  }

  /** Every segment holds one key and value. */
  lemma {:induction false} SegmentHolds(segment: string) returns (k: string, v: string)
    ensures Holds(segment, k, v)
  {
    var i := Find(segment, '=');
    k := segment[..i];
    v := "";
    if i < |segment| {
      var rest := segment[i + 1..];
      v := rest[..Find(rest, '=')];
    }
  }

  /** Segments with the delimiter between them. */
  function Join(pieces: seq<string>, d: char): string
    requires pieces != []
  {
    if |pieces| == 1 then pieces[0] else pieces[0] + [d] + Join(pieces[1..], d)
  }

  lemma {:induction false} JoinCons(x: string, rest: seq<string>, d: char)
    requires rest != []
    ensures Join([x] + rest, d) == x + [d] + Join(rest, d)
  {
    assert ([x] + rest)[1..] == rest;
  }

  lemma {:induction false} SplitJoins(s: string, d: char)
    ensures Join(Split(s, d), d) == s
    decreases |s|
  {
    var i := Find(s, d);
    if i < |s| {
      var rest := s[i + 1..];
      SplitAt(s, d, i);
      SplitJoins(rest, d);
      JoinCons(s[..i], Split(rest, d), d);
      assert s == s[..i] + [d] + rest;
    }
  }

  /** Segment i is the last with key k, and holds v. */
  ghost predicate LastSets(segments: seq<string>, i: int, k: string, v: string) {
    0 <= i < |segments| && Holds(segments[i], k, v) && forall j :: i < j < |segments| ==> !HasKey(segments[j], k)
  }

  lemma {:induction false} StaysLast(segments: seq<string>, i: int, k: string, v: string)
    requires segments != [] && LastSets(segments[..|segments| - 1], i, k, v) && !HasKey(segments[|segments| - 1], k)
    ensures LastSets(segments, i, k, v)
  {
    var before := segments[..|segments| - 1];
    assert forall j :: 0 <= j < |before| ==> before[j] == segments[j];
  }

  lemma {:induction false} LastSegmentWins(segments: seq<string>, k: string)
    requires k != ""
    ensures k in AddSegments(segments) ==> exists i :: LastSets(segments, i, k, AddSegments(segments)[k])
    ensures k !in AddSegments(segments) ==> forall i :: 0 <= i < |segments| ==> !HasKey(segments[i], k)
  {
    if segments != [] {
      var n := |segments| - 1;
      var before := segments[..n];
      var k', v := SegmentHolds(segments[n]);
      SegmentSets(AddSegments(before), segments[n], k', v);
      LastSegmentWins(before, k);
      assert forall i :: 0 <= i < n ==> before[i] == segments[i];
      if k == k' {
        assert LastSets(segments, n, k, v);
      } else {
        OneKey(segments[n], k, k');
        if k in AddSegments(before) {
          var w := AddSegments(before)[k];
          var i :| LastSets(before, i, k, w);
          StaysLast(segments, i, k, w);
        }
      }
    }
  }

  lemma {:induction false} OneKey(segment: string, k: string, k': string)
    requires HasKey(segment, k') && k != k'
    ensures !HasKey(segment, k)
  {
    if HasKey(segment, k) {
      FirstPiece(segment, k);
      FirstPiece(segment, k');
    }
  }

  /**
   * For every text: it is its segments joined by ';', none of which holds one, and a key other
   * than the empty one has the value of the last segment that gives it, or is absent if none does.
   */
  lemma {:induction false} ParseReadsLast(s: string, k: string) returns (segments: seq<string>)
    requires k != ""
    ensures segments != [] && Join(segments, ';') == s && forall i :: 0 <= i < |segments| ==> ';' !in segments[i]
    ensures k in Parse(s) ==> exists i :: LastSets(segments, i, k, Parse(s)[k])
    ensures k !in Parse(s) ==> forall i :: 0 <= i < |segments| ==> !HasKey(segments[i], k)
  {
    segments := Split(s, ';');
    SplitJoins(s, ';');
    forall i | 0 <= i < |segments| ensures ';' !in segments[i] { PiecesClean(s, ';', i); }
    LastSegmentWins(segments, k);
  }

  // ---------- What a parse can return ----------

  /** Pieces hold no delimiter, and no character the text does not have. */
  lemma {:induction false} PiecesClean(s: string, d: char, i: nat)
    requires i < |Split(s, d)|
    ensures d !in Split(s, d)[i]
    ensures forall c :: c in Split(s, d)[i] ==> c in s
    decreases |s|
  {
    var n := Find(s, d);
    if n < |s| && i > 0 { PiecesClean(s[n + 1..], d, i - 1); }
  }

  lemma {:induction false} AddSegmentClean(m: Params, segment: string)
    requires Clean(m) && ';' !in segment
    ensures Clean(AddSegment(m, segment))
  {
    var kv := Split(segment, '=');
    PiecesClean(segment, '=', 0);
    if |kv| > 1 { PiecesClean(segment, '=', 1); }
  }

  lemma {:induction false} AddSegmentsClean(segments: seq<string>)
    requires forall i :: 0 <= i < |segments| ==> ';' !in segments[i]
    ensures Clean(AddSegments(segments))
  {
    if segments != [] {
      AddSegmentsClean(segments[..|segments| - 1]);
      AddSegmentClean(AddSegments(segments[..|segments| - 1]), segments[|segments| - 1]);
    }
  }

  /** Whatever the text, what it parses to is clean. */
  lemma {:induction false} ParseIsClean(s: string)
    ensures Clean(Parse(s))
  {
    forall i | 0 <= i < |Split(s, ';')| ensures ';' !in Split(s, ';')[i] { PiecesClean(s, ';', i); }
    AddSegmentsClean(Split(s, ';'));
  }

  /** A map survives printing, in any order, and parsing exactly if it is clean. */
  lemma {:induction false} RoundTripIff(entries: seq<(string, string)>, m: Params)
    requires Lists(entries, m)
    ensures Parse(Print(entries)) == m <==> Clean(m)
  {
    ParseIsClean(Print(entries));
    if Clean(m) { CleanRoundTrip(entries, m); }
  }

  lemma {:induction false} CleanRoundTrip(entries: seq<(string, string)>, m: Params)
    requires Lists(entries, m) && Clean(m)
    ensures Parse(Print(entries)) == m
  {
    PrintParses(entries, "");
    assert Print(entries) + "" == Print(entries);
    ParseEmpty();
    MapOfLists(entries, m);
    assert m + map[] == m;
  }

  lemma {:induction false} MapOfLists(entries: seq<(string, string)>, m: Params)
    requires Lists(entries, m)
    ensures MapOf(entries) == m
  {
    forall k ensures k in MapOf(entries) <==> k in m
             ensures k in m ==> MapOf(entries)[k] == m[k] {
      MapOfListing(entries, k);
    }
  }

  /** So parsing is idempotent: what any text parses to survives being printed and parsed again. */
  lemma {:induction false} ParseIsStable(s: string, entries: seq<(string, string)>)
    requires Lists(entries, Parse(s))
    ensures Parse(Print(entries)) == Parse(s)
  {
    ParseIsClean(s);
    RoundTripIff(entries, Parse(s));
  }
}
