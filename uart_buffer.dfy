/**
 * `UARTBuffer`: a string buffer that collects the chunks read from the
 * serial link, cuts its front when it grows past its limit, and extracts
 * every complete packet that the packet pattern finds in it.
 *
 * The pattern is `START|F1|F2|F3|F4|F5|END` where F1 is a non-empty run of
 * characters other than `|`, F2, F3 and F5 are non-empty runs of digits and
 * F4 is a non-empty run of digits, `.` and `-`. No field class contains
 * `|`, so a field is always the longest run of its class and the regular
 * expression is matched here by a deterministic scanner.
 */
module UartBuffer {
  import opened Wrappers
  import opened Text

  // ---------------------------------------------------------------------
  // The packet pattern
  // ---------------------------------------------------------------------

  /** The character classes of the five fields: `[^|]`, `\d` and `[\d.-]`. */
  datatype CharClass = NotPipe | Digit | Numeric

  predicate InClass(c: char, k: CharClass) {
    match k
    case NotPipe => c != '|'
    case Digit => IsDigit(c)
    case Numeric => IsDigit(c) || c == '.' || c == '-'
  }

  /** The fields between `START|` and `|END`, in order. */
  const FieldClasses: seq<CharClass> := [NotPipe, Digit, Digit, Numeric, Digit]

  const Head := "START|"
  const Tail := "END"

  /** The end of the longest run of class `k` starting at `i`. */
  function RunEnd(s: string, i: nat, k: CharClass): (j: nat)
    requires i <= |s|
    ensures i <= j <= |s|
    decreases |s| - i
  {
    if i == |s| || !InClass(s[i], k) then i else RunEnd(s, i + 1, k)
  }

  /** The run is of class `k` throughout, and the next character, if any, is not. */
  lemma {:induction false} RunEndMaximal(s: string, i: nat, k: CharClass)
    requires i <= |s|
    ensures forall q :: i <= q < RunEnd(s, i, k) ==> InClass(s[q], k)
    ensures RunEnd(s, i, k) == |s| || !InClass(s[RunEnd(s, i, k)], k)
    decreases |s| - i
  {
    if i < |s| && InClass(s[i], k) {
      RunEndMaximal(s, i + 1, k);
    }
  }

  /**
   * Match the fields of `classes` from `i` on, each a non-empty run of its
   * class followed by `|`; the result is the index after the last `|`.
   */
  function FieldsEnd(s: string, i: nat, classes: seq<CharClass>): (r: Option<nat>)
    requires i <= |s|
    ensures r.Some? ==> i + 2 * |classes| <= r.value <= |s|
    ensures r.Some? && classes != [] ==> s[r.value - 1] == '|'
    decreases |classes|
  {
    if classes == [] then Some(i)
    else
      var j := RunEnd(s, i, classes[0]);
      if i < j < |s| && s[j] == '|' then FieldsEnd(s, j + 1, classes[1..]) else None
  }

  /** Whether `m` occurs in `s` at index `i`. */
  predicate OccursAt(s: string, m: string, i: nat) {
    i + |m| <= |s| && s[i..i + |m|] == m
  }

  /** The end of the packet that the pattern matches at `i`, if it matches there. */
  function MatchAt(s: string, i: nat): (r: Option<nat>)
    requires i <= |s|
    ensures r.Some? ==> i < r.value <= |s|
  {
    if OccursAt(s, Head, i) then
      match FieldsEnd(s, i + |Head|, FieldClasses)
      case None => None
      case Some(p) => if OccursAt(s, Tail, p) then Some(p + |Tail|) else None
    else None
  }

  /** A match is at least 19 characters long, starts with `START|` and ends with `|END`. */
  lemma MatchShape(s: string, i: nat)
    requires i <= |s| && MatchAt(s, i).Some?
    ensures var e := MatchAt(s, i).value;
      && i + |Head| + 2 * |FieldClasses| + |Tail| <= e
      && s[i..i + |Head|] == Head && s[e - 4..e] == "|END"
  {
    var p := FieldsEnd(s, i + |Head|, FieldClasses).value;
    TailShape(s, p);
  }

  /** A `|` followed by `END` is the text `|END`. */
  lemma TailShape(s: string, p: nat)
    requires 1 <= p <= |s| && s[p - 1] == '|' && OccursAt(s, Tail, p)
    ensures s[p - 1..p + |Tail|] == "|END"
  {
    assert s[p - 1..p + |Tail|] == [s[p - 1]] + s[p..p + |Tail|];
  }

  /** Every match ends with the `D` of `END`. */
  lemma MatchEndsWithD(s: string, i: nat)
    requires i <= |s| && MatchAt(s, i).Some?
    ensures s[MatchAt(s, i).value - 1] == 'D'
  {
    MatchShape(s, i);
    var e := MatchAt(s, i).value;
    assert s[e - 4..e][3] == s[e - 1];
  }

  // ---------------------------------------------------------------------
  // The pattern as a language
  // ---------------------------------------------------------------------

  /** `f` is a non-empty run of class `k`. */
  predicate FieldOf(f: string, k: CharClass) {
    |f| > 0 && forall x :: 0 <= x < |f| ==> InClass(f[x], k)
  }

  /** One field per class, each a non-empty run of its class. */
  predicate Typed(fields: seq<string>, classes: seq<CharClass>) {
    |fields| == |classes| && forall k :: 0 <= k < |fields| ==> FieldOf(fields[k], classes[k])
  }

  /**
   * The texts the packet pattern matches in full: split on `|` they are
   * `START`, five fields of the classes `FieldClasses`, and `END`.
   */
  predicate IsPacket(m: string) {
    var parts := Split(m, '|');
    |parts| == 7 && parts[0] == "START" && parts[6] == "END" && Typed(parts[1..6], FieldClasses)
  }

  /** No field class holds `|`. */
  lemma FieldNoPipe(f: string, k: CharClass)
    requires FieldOf(f, k)
    ensures '|' !in f
  {
    assert forall x :: 0 <= x < |f| ==> f[x] != '|';
  }

  /** A run ends exactly where its class stops. */
  lemma RunEndExact(s: string, i: nat, k: CharClass, n: nat)
    requires i + n < |s| && !InClass(s[i + n], k)
    requires forall x :: i <= x < i + n ==> InClass(s[x], k)
    ensures RunEnd(s, i, k) == i + n
  {
    RunEndMaximal(s, i, k);
  }

  /** The joined pieces end with the last piece. */
  lemma {:induction false} JoinEndsWith(parts: seq<string>, u: string, sep: string)
    ensures |u| <= |Join(parts + [u], sep)|
    ensures Join(parts + [u], sep)[|Join(parts + [u], sep)| - |u|..] == u
    decreases |parts|
  {
    if parts == [] {
      assert parts + [u] == [u];
    } else {
      assert (parts + [u])[1..] == parts[1..] + [u];
      JoinEndsWith(parts[1..], u, sep);
    }
  }

  /** The field texts `FieldsEnd` passes over, in order. */
  function Pieces(s: string, i: nat, classes: seq<CharClass>): seq<string>
    requires i <= |s| && FieldsEnd(s, i, classes).Some?
    decreases |classes|
  {
    if classes == [] then []
    else
      var j := RunEnd(s, i, classes[0]);
      [s[i..j]] + Pieces(s, j + 1, classes[1..])
  }

  /** Each piece is a non-empty run of its class. */
  lemma {:induction false} PiecesTyped(s: string, i: nat, classes: seq<CharClass>)
    requires i <= |s| && FieldsEnd(s, i, classes).Some?
    ensures Typed(Pieces(s, i, classes), classes)
    decreases |classes|
  {
    if classes != [] {
      var j := RunEnd(s, i, classes[0]);
      var rest := Pieces(s, j + 1, classes[1..]);
      RunEndMaximal(s, i, classes[0]);
      PiecesTyped(s, j + 1, classes[1..]);
      var pieces := Pieces(s, i, classes);
      assert pieces == [s[i..j]] + rest;
      forall k | 0 <= k < |classes|
        ensures FieldOf(pieces[k], classes[k])
      {
        if k > 0 {
          assert pieces[k] == rest[k - 1] && classes[k] == classes[1..][k - 1];
        }
      }
    }
  }

  /** Cutting `s[i..p]` at a `|`. */
  lemma CutAtPipe(s: string, i: nat, j: nat, p: nat, u: string)
    requires i <= j < p <= |s| && s[j] == '|'
    ensures s[i..p] + u == s[i..j] + "|" + (s[j + 1..p] + u)
  {
    assert s[i..p] == s[i..j] + [s[j]] + s[j + 1..p];
  }

  /** What `FieldsEnd` passes over is its pieces, each followed by `|`. */
  lemma {:induction false} FieldsEndPieces(s: string, i: nat, classes: seq<CharClass>, u: string)
    requires i <= |s| && FieldsEnd(s, i, classes).Some?
    ensures s[i..FieldsEnd(s, i, classes).value] + u == Join(Pieces(s, i, classes) + [u], "|")
    decreases |classes|
  {
    if classes == [] {
      assert s[i..i] + u == u;
    } else {
      var j := RunEnd(s, i, classes[0]);
      var p := FieldsEnd(s, i, classes).value;
      var rest := Pieces(s, j + 1, classes[1..]);
      FieldsEndPieces(s, j + 1, classes[1..], u);
      var pieces := Pieces(s, i, classes);
      assert pieces == [s[i..j]] + rest;
      assert (pieces + [u])[1..] == rest + [u];
      CutAtPipe(s, i, j, p, u);
    }
  }

  /** `FieldsEnd` passes over joined fields of the right classes up to the last `|`. */
  lemma {:induction false} FieldsEndOfJoin(s: string, i: nat, classes: seq<CharClass>, fields: seq<string>, u: string)
    requires Typed(fields, classes)
    requires i + |Join(fields + [u], "|")| <= |s|
    requires s[i..i + |Join(fields + [u], "|")|] == Join(fields + [u], "|")
    ensures |u| <= |Join(fields + [u], "|")|
    ensures FieldsEnd(s, i, classes).Some?
    ensures FieldsEnd(s, i, classes).value == i + |Join(fields + [u], "|")| - |u|
    decreases |classes|
  {
    if classes == [] {
      assert fields + [u] == [u];
      assert Join(fields + [u], "|") == u;
      assert FieldsEnd(s, i, classes).Some? && FieldsEnd(s, i, classes).value == i;
    } else {
      var j := FirstFieldStep(s, i, classes, fields, u);
      FieldsEndOfJoin(s, j + 1, classes[1..], fields[1..], u);
      FieldsEndStep(s, i, classes, j, i + |Join(fields + [u], "|")| - |u|);
    }
  }

  /**
   * Where `s` holds joined typed fields, the first field is a whole run of its
   * class ended by `|`, and the rest of the text is the join of the others.
   */
  lemma FirstFieldStep(s: string, i: nat, classes: seq<CharClass>, fields: seq<string>, u: string) returns (j: nat)
    requires Typed(fields, classes) && classes != []
    requires i + |Join(fields + [u], "|")| <= |s|
    requires s[i..i + |Join(fields + [u], "|")|] == Join(fields + [u], "|")
    ensures j == i + |fields[0]| && i < j < |s| && s[j] == '|' && RunEnd(s, i, classes[0]) == j
    ensures j + 1 + |Join(fields[1..] + [u], "|")| == i + |Join(fields + [u], "|")|
    ensures s[j + 1..i + |Join(fields + [u], "|")|] == Join(fields[1..] + [u], "|")
    ensures Typed(fields[1..], classes[1..])
  {
    var f := fields[0];
    j := i + |f|;
    assert FieldOf(f, classes[0]);
    var rest := Join(fields[1..] + [u], "|");
    assert (fields + [u])[1..] == fields[1..] + [u];
    JoinCons(fields + [u], "|");
    assert Join(fields + [u], "|") == f + "|" + rest;
    SliceOfField(s, i, f, rest);
    FieldRunEnd(s, i, f, classes[0]);
    TypedTail(fields, classes);
  }

  /** Past a non-empty first field and its `|`, matching goes on with the other classes. */
  lemma FieldsEndStep(s: string, i: nat, classes: seq<CharClass>, j: nat, v: nat)
    requires classes != [] && i < j < |s| && s[j] == '|'
    requires RunEnd(s, i, classes[0]) == j
    requires FieldsEnd(s, j + 1, classes[1..]).Some? && FieldsEnd(s, j + 1, classes[1..]).value == v
    ensures FieldsEnd(s, i, classes).Some? && FieldsEnd(s, i, classes).value == v
  {
    assert FieldsEnd(s, i, classes).Some?;
  }

  /** Where `s` holds `f`, a `|` and `rest`, it holds each of them. */
  lemma SliceOfField(s: string, i: nat, f: string, rest: string)
    requires i + |f + "|" + rest| <= |s| && s[i..i + |f + "|" + rest|] == f + "|" + rest
    ensures |f + "|" + rest| == |f| + 1 + |rest|
    ensures s[i..i + |f|] == f
    ensures s[i + |f|] == '|'
    ensures s[i + |f| + 1..i + |f| + 1 + |rest|] == rest
  {
    var w := f + "|" + rest;
    assert s[i..i + |f|] == w[..|f|];
    assert s[i + |f|] == w[|f|];
    assert s[i + |f| + 1..i + |f| + 1 + |rest|] == w[|f| + 1..];
  }

  /** A field of class `k` held in `s` and followed by `|` is the whole run of `k`. */
  lemma FieldRunEnd(s: string, i: nat, f: string, k: CharClass)
    requires FieldOf(f, k) && i + |f| < |s| && s[i..i + |f|] == f && s[i + |f|] == '|'
    ensures RunEnd(s, i, k) == i + |f|
  {
    forall x | i <= x < i + |f|
      ensures InClass(s[x], k)
    {
      assert s[x] == s[i..i + |f|][x - i];
    }
    RunEndExact(s, i, k, |f|);
  }

  /** Dropping the first field and its class keeps the rest typed. */
  lemma TypedTail(fields: seq<string>, classes: seq<CharClass>)
    requires Typed(fields, classes) && fields != []
    ensures Typed(fields[1..], classes[1..])
  {
    forall k | 0 <= k < |fields| - 1
      ensures FieldOf(fields[1..][k], classes[1..][k])
    {
      assert fields[1..][k] == fields[k + 1] && classes[1..][k] == classes[k + 1];
    }
  }

  /** A match at `i`: `START|`, the fields up to `p`, then `END`. */
  lemma MatchParts(s: string, i: nat)
    requires i <= |s| && MatchAt(s, i).Some?
    ensures OccursAt(s, Head, i) && FieldsEnd(s, i + |Head|, FieldClasses).Some?
    ensures var p := FieldsEnd(s, i + |Head|, FieldClasses).value;
      OccursAt(s, Tail, p) && MatchAt(s, i).value == p + |Tail|
  {
  }

  /** `START|` at `i`, fields of `classes` passed over up to `p`, and `END` at `p`. */
  predicate Framing(s: string, i: nat, p: nat, classes: seq<CharClass>) {
    && OccursAt(s, Head, i)
    && FieldsEnd(s, i + |Head|, classes).Some? && FieldsEnd(s, i + |Head|, classes).value == p
    && OccursAt(s, Tail, p)
  }

  /** `START|`, the fields up to `p`, then `END` make a match at `i`. */
  lemma MatchFrom(s: string, i: nat, p: nat, e: nat)
    requires Framing(s, i, p, FieldClasses) && e == p + |Tail|
    ensures MatchAt(s, i).Some? && MatchAt(s, i).value == e
  {
  }

  /** The parts of a packet built from typed fields hold no `|`. */
  lemma PartsUnseparated(fields: seq<string>)
    requires Typed(fields, FieldClasses)
    ensures forall k :: 0 <= k < |["START"] + fields + ["END"]| ==> '|' !in (["START"] + fields + ["END"])[k]
  {
    var parts := ["START"] + fields + ["END"];
    forall k | 0 <= k < |parts|
      ensures '|' !in parts[k]
    {
      if 1 <= k <= 5 {
        assert parts[k] == fields[k - 1];
        FieldNoPipe(fields[k - 1], FieldClasses[k - 1]);
      }
    }
  }

  /** `START|`, typed fields joined with `|`, then `|END` is a packet. */
  lemma PacketOfFields(fields: seq<string>)
    requires Typed(fields, FieldClasses)
    ensures IsPacket(Head + Join(fields + [Tail], "|"))
  {
    var parts := ["START"] + fields + ["END"];
    assert parts[1..] == fields + [Tail];
    JoinCons(parts, "|");
    assert Join(parts, "|") == Head + Join(fields + [Tail], "|");
    PartsUnseparated(fields);
    SplitJoin(parts, '|');
    assert parts[1..6] == fields;
  }

  /** Text framed by `START|` and `END` around fields the pattern passes over is their join. */
  lemma FramedPieces(s: string, i: nat, p: nat, classes: seq<CharClass>)
    requires Framing(s, i, p, classes)
    ensures Typed(Pieces(s, i + |Head|, classes), classes)
    ensures s[i..p + |Tail|] == Head + Join(Pieces(s, i + |Head|, classes) + [Tail], "|")
  {
    var q := i + |Head|;
    FieldsEndPieces(s, q, classes, Tail);
    assert s[q..p] + Tail == Join(Pieces(s, q, classes) + [Tail], "|");
    SliceConcat(s, i, q, p, p + |Tail|);
    assert s[i..q] == Head && s[p..p + |Tail|] == Tail;
    PiecesTyped(s, q, classes);
  }

  /** Text framed by `START|` and `END` around fields the pattern passes over is a packet. */
  lemma FramedIsPacket(s: string, i: nat, p: nat, e: nat)
    requires Framing(s, i, p, FieldClasses) && e == p + |Tail|
    ensures IsPacket(s[i..e])
  {
    FramedPieces(s, i, p, FieldClasses);
    PacketOfFields(Pieces(s, i + |Head|, FieldClasses));
  }

  /** A match is a packet of the pattern's language. */
  lemma MatchIsPacket(s: string, i: nat, e: nat)
    requires i <= e <= |s| && MatchAt(s, i).Some? && MatchAt(s, i).value == e
    ensures IsPacket(s[i..e])
  {
    MatchParts(s, i);
    FramedIsPacket(s, i, FieldsEnd(s, i + |Head|, FieldClasses).value, e);
  }

  /** Three adjacent slices make one. */
  lemma SliceConcat(s: string, a: nat, b: nat, c: nat, d: nat)
    requires a <= b <= c <= d <= |s|
    ensures s[a..d] == s[a..b] + (s[b..c] + s[c..d])
  {
    assert s[a..d] == s[a..b] + s[b..d];
    assert s[b..d] == s[b..c] + s[c..d];
  }

  /** Joining two or more pieces: the first, the separator, then the join of the rest. */
  lemma JoinCons(parts: seq<string>, sep: string)
    requires |parts| >= 2
    ensures Join(parts, sep) == parts[0] + sep + Join(parts[1..], sep)
  {
  }

  /** A packet is `START|`, then its typed fields joined with `|`, then `|END`. */
  lemma PacketLayout(m: string)
    requires IsPacket(m)
    ensures Typed(Split(m, '|')[1..6], FieldClasses)
    ensures m == Head + Join(Split(m, '|')[1..6] + [Tail], "|")
  {
    var parts := Split(m, '|');
    SplitPieces(m, '|');
    assert parts[1..] == parts[1..6] + [Tail];
    JoinCons(parts, "|");
  }

  /** A slice that is a concatenation splits into the two halves. */
  lemma SliceSplit(s: string, i: nat, e: nat, a: string, b: string)
    requires i <= e <= |s| && s[i..e] == a + b
    ensures i + |a| + |b| == e
    ensures s[i..i + |a|] == a && s[i + |a|..e] == b
  {
    assert s[i..i + |a|] == s[i..e][..|a|];
    assert s[i + |a|..e] == s[i..e][|a|..];
  }

  /** Text laid out as joined pieces ending in `END` has `END` at its end. */
  lemma TailOccurs(s: string, a: nat, e: nat, fields: seq<string>)
    requires a <= e <= |s| && s[a..e] == Join(fields + [Tail], "|")
    ensures |Tail| <= e - a && OccursAt(s, Tail, e - |Tail|)
  {
    var joined := Join(fields + [Tail], "|");
    JoinEndsWith(fields, Tail, "|");
    SliceEnds(s, a, e, 0, |Tail|);
    assert s[e - |Tail|..e] == joined[|joined| - |Tail|..];
  }

  /** `START|`, typed fields joined with `|`, then `|END`: the fields the pattern passes over. */
  lemma PacketParts(s: string, i: nat, e: nat, classes: seq<CharClass>, fields: seq<string>)
    requires i <= e <= |s| && Typed(fields, classes)
    requires s[i..e] == Head + Join(fields + [Tail], "|")
    ensures |Head| + |Tail| <= e - i && Framing(s, i, e - |Tail|, classes)
  {
    SliceSplit(s, i, e, Head, Join(fields + [Tail], "|"));
    FieldsEndOfJoin(s, i + |Head|, classes, fields, Tail);
    assert FieldsEnd(s, i + |Head|, classes).value == e - |Tail|;
    TailOccurs(s, i + |Head|, e, fields);
  }

  /** A packet is `START|`, then fields the pattern passes over, then `END`. */
  lemma PacketFramed(s: string, i: nat, e: nat) returns (p: nat)
    requires i <= e <= |s| && IsPacket(s[i..e])
    ensures i + |Head| <= p && p + |Tail| == e && Framing(s, i, p, FieldClasses)
  {
    PacketLayout(s[i..e]);
    PacketParts(s, i, e, FieldClasses, Split(s[i..e], '|')[1..6]);
    p := e - |Tail|;
  }

  /**
   * The scanner decides the pattern: it matches at `i` up to `e` exactly
   * when `s[i..e]` is a packet of the pattern's language.
   */
  lemma MatchAtIsPacket(s: string, i: nat, e: nat)
    requires i <= e <= |s|
    ensures MatchAt(s, i) == Some(e) <==> IsPacket(s[i..e])
  {
    if MatchAt(s, i) == Some(e) {
      MatchIsPacket(s, i, e);
    }
    if IsPacket(s[i..e]) {
      var p := PacketFramed(s, i, e);
      MatchFrom(s, i, p, e);
    }
  }

  /** The digit fields of a packet read as integers: its sequence, timestamp and checksum. */
  lemma PacketIntegerFields(m: string)
    requires IsPacket(m)
    ensures ParseInt(Split(m, '|')[2]).Some?
    ensures ParseInt(Split(m, '|')[3]).Some?
    ensures ParseInt(Split(m, '|')[5]).Some?
  {
    var parts := Split(m, '|');
    assert parts[1..6][1] == parts[2] && parts[1..6][2] == parts[3] && parts[1..6][4] == parts[5];
    DigitFieldParses(parts[2]);
    DigitFieldParses(parts[3]);
    DigitFieldParses(parts[5]);
  }

  lemma DigitFieldParses(f: string)
    requires FieldOf(f, Digit)
    ensures ParseInt(f) == Some(DigitsValue(f))
  {
    assert IsDigit(f[0]) && IsDigit(f[|f| - 1]);
    assert TrimNumber(f) == f;
  }

  // ---------------------------------------------------------------------
  // `findall`: leftmost matches, left to right, without overlap
  // ---------------------------------------------------------------------

  /** The half-open index range `[start, end)` of one match. */
  datatype Span = Span(start: nat, end: nat)

  /** Position `q` lies inside one of the spans. */
  predicate Covered(spans: seq<Span>, q: int) {
    exists k :: 0 <= k < |spans| && spans[k].start <= q < spans[k].end
  }

  /**
   * The spans `findall` visits from `i` on: at each position try the
   * pattern; after a match continue at its end, otherwise one further.
   */
  function FindSpans(s: string, i: nat): (r: seq<Span>)
    requires i <= |s|
    ensures forall k :: 0 <= k < |r| ==> i <= r[k].start < r[k].end <= |s|
    ensures forall k :: 0 <= k < |r| - 1 ==> r[k].end <= r[k + 1].start
    decreases |s| - i
  {
    if i == |s| then []
    else
      match MatchAt(s, i)
      case Some(e) => [Span(i, e)] + FindSpans(s, e)
      case None => FindSpans(s, i + 1)
  }

  /** Every reported span is a match of the pattern. */
  lemma {:induction false} FindSpansMatch(s: string, i: nat)
    requires i <= |s|
    ensures forall k :: 0 <= k < |FindSpans(s, i)| ==>
      MatchAt(s, FindSpans(s, i)[k].start).Some? &&
      MatchAt(s, FindSpans(s, i)[k].start).value == FindSpans(s, i)[k].end
    decreases |s| - i
  {
    if i < |s| {
      match MatchAt(s, i)
      case Some(e) =>
        FindSpansMatch(s, e);
      case None =>
        FindSpansMatch(s, i + 1);
    }
  }

  /**
   * `findall` skips no match: every position from `i` on where the pattern
   * matches lies inside one of the reported spans (a match that starts
   * inside an earlier match is not reported, as in `findall`).
   */
  lemma {:induction false} FindSpansComplete(s: string, i: nat)
    requires i <= |s|
    ensures forall q :: i <= q < |s| && MatchAt(s, q).Some? ==> Covered(FindSpans(s, i), q)
    decreases |s| - i
  {
    if i < |s| {
      var r := FindSpans(s, i);
      match MatchAt(s, i)
      case Some(e) =>
        var rest := FindSpans(s, e);
        assert r == [Span(i, e)] + rest;
        FindSpansComplete(s, e);
        forall q | i <= q < |s| && MatchAt(s, q).Some?
          ensures Covered(r, q)
        {
          if q < e {
            assert r[0].start <= q < r[0].end;
          } else {
            var k :| 0 <= k < |rest| && rest[k].start <= q < rest[k].end;
            assert r[k + 1] == rest[k];
          }
        }
      case None =>
        assert r == FindSpans(s, i + 1);
        FindSpansComplete(s, i + 1);
        forall q | i <= q < |s| && MatchAt(s, q).Some?
          ensures Covered(r, q)
        {
          assert q != i;
        }
    }
  }

  /** The texts of the spans, in order. */
  function Slices(s: string, spans: seq<Span>): (r: seq<string>)
    requires forall k :: 0 <= k < |spans| ==> spans[k].start <= spans[k].end <= |s|
    ensures |r| == |spans|
  {
    if spans == [] then []
    else [s[spans[0].start..spans[0].end]] + Slices(s, spans[1..])
  }

  /** The `k`-th text is the text of the `k`-th span. */
  lemma {:induction false} SliceAt(s: string, spans: seq<Span>, k: nat)
    requires forall j :: 0 <= j < |spans| ==> spans[j].start <= spans[j].end <= |s|
    requires k < |spans|
    ensures Slices(s, spans)[k] == s[spans[k].start..spans[k].end]
    decreases k
  {
    if k > 0 {
      SliceAt(s, spans[1..], k - 1);
    }
  }

  /** `packet_pattern.findall(s)`: the texts of all matches, left to right. */
  function FindAll(s: string): (r: seq<string>)
  {
    Slices(s, FindSpans(s, 0))
  }

  /** The first `x` and the last `y` characters of a slice are slices of the whole. */
  lemma SliceEnds(s: string, a: nat, b: nat, x: nat, y: nat)
    requires a + x <= b <= |s| && y <= b - a
    ensures s[a..b][..x] == s[a..a + x]
    ensures s[a..b][b - a - y..] == s[b - y..b]
  {
  }

  /**
   * The outer frame of a packet: `START|` first, `|END` last, and room for
   * five one-character fields between them.
   */
  predicate Framed(m: string)
  {
    |m| >= |Head| + 2 * |FieldClasses| + |Tail| && m[..6] == Head && m[|m| - 4..] == "|END"
  }

  /** Every match the buffer reports starts with `START|` and ends with `|END`. */
  lemma FindAllShaped(s: string)
    ensures forall k :: 0 <= k < |FindAll(s)| ==> Framed(FindAll(s)[k])
  {
    var spans := FindSpans(s, 0);
    FindSpansMatch(s, 0);
    forall k | 0 <= k < |FindAll(s)|
      ensures Framed(FindAll(s)[k])
    {
      var sp := spans[k];
      MatchSliceShaped(s, sp.start, sp.end);
      SliceAt(s, spans, k);
    }
  }

  /** The text a match spans starts with `START|` and ends with `|END`. */
  lemma MatchSliceShaped(s: string, i: nat, e: nat)
    requires i <= e <= |s| && MatchAt(s, i).Some? && MatchAt(s, i).value == e
    ensures Framed(s[i..e])
  {
    MatchShape(s, i);
    SliceEnds(s, i, e, |Head|, 4);
  }

  /**
   * Every extracted text is a packet of the pattern's language: split on `|`
   * it is `START`, five fields of their classes, and `END`.
   */
  lemma FindAllPackets(s: string)
    ensures forall k :: 0 <= k < |FindAll(s)| ==> IsPacket(FindAll(s)[k])
  {
    var spans := FindSpans(s, 0);
    FindSpansMatch(s, 0);
    forall k | 0 <= k < |FindAll(s)|
      ensures IsPacket(FindAll(s)[k])
    {
      var sp := spans[k];
      MatchIsPacket(s, sp.start, sp.end);
      SliceAt(s, spans, k);
    }
  }

  /** No match can end without a `D`: text without one holds no packet. */
  lemma NoTerminatorNoPacket(s: string)
    ensures 'D' !in s ==> FindAll(s) == []
  {
    var spans := FindSpans(s, 0);
    if |spans| > 0 {
      FindSpansMatch(s, 0);
      MatchEndsWithD(s, spans[0].start);
      assert s[spans[0].end - 1] in s;
    }
  }

  /** Every class after the first admits only digits and, for `Numeric`, `.` and `-`. */
  predicate LaterClassesNumeric(classes: seq<CharClass>) {
    forall k :: 1 <= k < |classes| ==> classes[k] != NotPipe
  }

  /** Only the sensor id field may hold letters. */
  lemma FieldClassesLaterNumeric()
    ensures LaterClassesNumeric(FieldClasses)
  {
  }

  /**
   * Inside the fields, a `|` is followed by an `E` only after the first
   * field: every later class excludes `E`.
   */
  lemma {:induction false} FieldPipes(s: string, i: nat, classes: seq<CharClass>, q: nat)
    requires i <= |s| && FieldsEnd(s, i, classes).Some?
    requires LaterClassesNumeric(classes)
    requires i <= q < FieldsEnd(s, i, classes).value - 1 && s[q] == '|'
    ensures s[q + 1] != 'E'
    decreases |classes|
  {
    var j := FirstRun(s, i, classes);
    if q > j {
      FieldPipes(s, j + 1, classes[1..], q);
    } else {
      var k := FirstRun(s, j + 1, classes[1..]);
      RunStartNotE(s, j + 1, classes[1]);
    }
  }

  /** Matching the first class: its run holds no `|` and ends at a `|`, where the other classes go on. */
  lemma FirstRun(s: string, i: nat, classes: seq<CharClass>) returns (j: nat)
    requires i <= |s| && classes != [] && FieldsEnd(s, i, classes).Some?
    ensures j == RunEnd(s, i, classes[0]) && i < j < |s| && s[j] == '|'
    ensures FieldsEnd(s, j + 1, classes[1..]).Some?
    ensures FieldsEnd(s, j + 1, classes[1..]).value == FieldsEnd(s, i, classes).value
    ensures forall q :: i <= q < j ==> s[q] != '|'
  {
    j := RunEnd(s, i, classes[0]);
    RunEndMaximal(s, i, classes[0]);
    forall q | i <= q < j
      ensures s[q] != '|'
    {
      assert InClass(s[q], classes[0]);
    }
  }

  /** A non-empty run of a numeric class does not start with `E`. */
  lemma RunStartNotE(s: string, i: nat, k: CharClass)
    requires i <= |s| && k != NotPipe && i < RunEnd(s, i, k)
    ensures s[i] != 'E'
  {
  }

  /**
   * Before the last field separator, a `|` followed by `E` can only be the
   * one that ends `START|`: `START` holds no `|`, and no later field class
   * holds an `E`.
   */
  lemma SeparatorBeforeE(P: string, p: nat, q: nat, classes: seq<CharClass>)
    requires |Head| <= |P| && P[..|Head|] == Head
    requires FieldsEnd(P, |Head|, classes).Some? && FieldsEnd(P, |Head|, classes).value == p
    requires LaterClassesNumeric(classes)
    requires q + 1 < p && P[q] == '|' && P[q + 1] == 'E'
    ensures q == |Head| - 1
  {
    forall x | 0 <= x < |Head| - 1
      ensures P[x] != '|'
    {
      assert P[x] == P[..|Head|][x];
    }
    if q >= |Head| {
      FieldPipes(P, |Head|, classes, q);
    }
  }

  /**
   * In a text that is one whole match, `|END` occurs only right after
   * `START` (a sensor id that begins with `END`) or at the very end.
   */
  lemma PacketEndOnlyAtEnd(P: string, q: nat)
    requires MatchAt(P, 0) == Some(|P|)
    requires q + 4 <= |P| && P[q..q + 4] == "|END"
    ensures q == 5 || q == |P| - 4
  {
    MatchParts(P, 0);
    var p := FieldsEnd(P, |Head|, FieldClasses).value;
    assert P[q] == '|' && P[q + 1] == 'E' by {
      assert P[q..q + 4][0] == P[q] && P[q..q + 4][1] == P[q + 1];
    }
    if q + 1 < p {
      FieldClassesLaterNumeric();
      SeparatorBeforeE(P, p, q, FieldClasses);
    }
  }

  /** A slice of a prefix is the same slice of the whole. */
  lemma PrefixSlice(P: string, n: nat, a: nat, b: nat)
    requires a <= b <= n <= |P|
    ensures P[..n][a..b] == P[a..b]
  {
  }

  /** No match starts inside a proper prefix of a whole match. */
  lemma ProperPrefixNoMatch(P: string, n: nat, i: nat)
    requires MatchAt(P, 0) == Some(|P|) && i <= n < |P|
    ensures MatchAt(P[..n], i).None?
  {
    if MatchAt(P[..n], i).Some? {
      var q := PrefixMatchEnd(P, n, i);
      PacketEndOnlyAtEnd(P, q);
      assert false;
    }
  }

  /** A match inside `P[..n]` ends with a `|END` of `P` that starts at 15 or later and ends by `n`. */
  lemma PrefixMatchEnd(P: string, n: nat, i: nat) returns (q: nat)
    requires i <= n <= |P| && MatchAt(P[..n], i).Some?
    ensures 15 <= q && q + 4 <= n && P[q..q + 4] == "|END"
  {
    var s := P[..n];
    var e := MatchAt(s, i).value;
    MatchShape(s, i);
    PrefixSlice(P, n, e - 4, e);
    q := e - 4;
  }

  /** A proper prefix of a whole match holds no match. */
  lemma NoPacketInProperPrefix(P: string, n: nat)
    requires MatchAt(P, 0) == Some(|P|) && n < |P|
    ensures FindAll(P[..n]) == []
  {
    var spans := FindSpans(P[..n], 0);
    if |spans| > 0 {
      FindSpansMatch(P[..n], 0);
      ProperPrefixNoMatch(P, n, spans[0].start);
      assert false;
    }
  }

  /** Empty text holds no packet. */
  lemma EmptyHoldsNone()
    ensures FindAll([]) == []
  {
    assert FindSpans([], 0) == [];
  }

  /** Removing the whole text from itself leaves nothing. */
  lemma RemoveSelf(s: string)
    ensures RemoveEach(s, [s]) == []
  {
    assert s[0..|s|] == s;
    assert IndexOf(s, s, 0).Some? && IndexOf(s, s, 0).value == 0;
    assert RemoveEach(s, [s]) == RemoveFirst(RemoveEach(s, []), s);
  }

  /** A buffer that is exactly one packet yields exactly that packet. */
  lemma WholePacketFound(s: string)
    requires MatchAt(s, 0) == Some(|s|)
    ensures FindAll(s) == [s]
  {
    assert FindSpans(s, 0) == [Span(0, |s|)];
    SliceAt(s, FindSpans(s, 0), 0);
    assert s[0..|s|] == s;
  }

  // ---------------------------------------------------------------------
  // Removing the extracted packets
  // ---------------------------------------------------------------------

  /** The first index at or after `i` where `m` occurs in `s`. */
  function IndexOf(s: string, m: string, i: nat): (r: Option<nat>)
    ensures r.Some? ==> i <= r.value && OccursAt(s, m, r.value)
    ensures forall q: nat :: i <= q && (r.None? || q < r.value) ==> !OccursAt(s, m, q)
    decreases |s| - i
  {
    if i + |m| > |s| then None
    else if s[i..i + |m|] == m then Some(i)
    else IndexOf(s, m, i + 1)
  }

  /** `s.replace(m, '', 1)`: drop the first occurrence of `m`, if there is one. */
  function RemoveFirst(s: string, m: string): string
  {
    match IndexOf(s, m, 0)
    case None => s
    case Some(q) => s[..q] + s[q + |m|..]
  }

  /** `u` is a suffix of `b`. */
  predicate EndsWith(b: string, u: string) {
    |u| <= |b| && b[|b| - |u|..] == u
  }

  lemma EndsWithDrop(b: string, u: string, d: nat)
    requires EndsWith(b, u) && d <= |u|
    ensures EndsWith(b, u[d..])
  {
    assert b[|b| - |u[d..]|..] == b[|b| - |u|..][d..];
  }

  /** An occurrence at `p` means the first occurrence is at `p` or before it. */
  lemma FirstOccurrenceBefore(s: string, m: string, p: nat)
    requires OccursAt(s, m, p)
    ensures IndexOf(s, m, 0).Some? && IndexOf(s, m, 0).value <= p
  {
  }

  /** Cutting `|m|` characters at `q` keeps a suffix that starts at or after `q + |m|`. */
  lemma CutKeepsTail(s: string, q: nat, n: nat, u: string)
    requires q + n <= |s| - |u| && EndsWith(s, u)
    ensures |s[..q] + s[q + n..]| == |s| - n
    ensures EndsWith(s[..q] + s[q + n..], u)
  {
    var r := s[..q] + s[q + n..];
    assert r[|r| - |u|..] == s[|s| - |u|..];
  }

  /**
   * When `m` starts a suffix `t` of `s`, the first occurrence of `m` is at
   * or before that suffix: removing it shortens `s` by `|m|` and keeps the
   * rest of `t` at the end.
   */
  lemma RemoveFirstKeepsTail(s: string, m: string, t: string)
    requires EndsWith(s, t) && |m| <= |t| && t[..|m|] == m
    ensures |RemoveFirst(s, m)| == |s| - |m|
    ensures EndsWith(RemoveFirst(s, m), t[|m|..])
  {
    var p := |s| - |t|;
    assert s[p..p + |m|] == t[..|m|];
    FirstOccurrenceBefore(s, m, p);
    var q := IndexOf(s, m, 0).value;
    EndsWithDrop(s, t, |m|);
    CutKeepsTail(s, q, |m|, t[|m|..]);
  }

  /** Remove the packets one after the other, as the loop of `add_data` does. */
  function RemoveEach(s: string, packets: seq<string>): string
    decreases |packets|
  {
    if packets == [] then s
    else RemoveFirst(RemoveEach(s, packets[..|packets| - 1]), packets[|packets| - 1])
  }

  function TotalLength(packets: seq<string>): nat
    decreases |packets|
  {
    if packets == [] then 0 else TotalLength(packets[..|packets| - 1]) + |packets[|packets| - 1]|
  }

  /** Removing one more packet: the prefix of `k` packets is the prefix of `k - 1` and one more. */
  lemma RemoveEachStep(s: string, packets: seq<string>, k: nat)
    requires 0 < k <= |packets|
    ensures RemoveEach(s, packets[..k]) == RemoveFirst(RemoveEach(s, packets[..k - 1]), packets[k - 1])
    ensures TotalLength(packets[..k]) == TotalLength(packets[..k - 1]) + |packets[k - 1]|
  {
    assert packets[..k][..k - 1] == packets[..k - 1];
  }

  /**
   * Removing `m`, which starts the suffix `t`, keeps every later part of
   * `t` at the end.
   */
  lemma RemoveFirstKeepsLater(b: string, m: string, t: string, next: nat)
    requires EndsWith(b, t) && |m| <= |t| && t[..|m|] == m
    requires |m| <= next <= |t|
    ensures |RemoveFirst(b, m)| == |b| - |m|
    ensures EndsWith(RemoveFirst(b, m), t[next..])
  {
    RemoveFirstKeepsTail(b, m, t);
    EndsWithDrop(RemoveFirst(b, m), t[|m|..], next - |m|);
    assert t[|m|..][next - |m|..] == t[next..];
  }

  /** Spans inside `s`, each non-empty, left to right without overlap. */
  predicate Ordered(s: string, spans: seq<Span>) {
    && (forall k :: 0 <= k < |spans| ==> spans[k].start < spans[k].end <= |s|)
    && (forall k :: 0 <= k < |spans| - 1 ==> spans[k].end <= spans[k + 1].start)
  }

  /**
   * After the texts of the first `k` of the spans were removed, the buffer
   * has lost exactly their length and still ends with the text from the
   * `k`-th span on.
   */
  predicate RemovedUpTo(s: string, spans: seq<Span>, k: nat)
    requires Ordered(s, spans) && k <= |spans|
  {
    var b := RemoveEach(s, Slices(s, spans)[..k]);
    && |b| == |s| - TotalLength(Slices(s, spans)[..k])
    && (k < |spans| ==> EndsWith(b, s[spans[k].start..]))
  }

  /**
   * The `k`-th text is a prefix of the buffer's suffix from its span on, and
   * the text from the next span (or nothing) follows it within that suffix.
   */
  lemma SpanTexts(s: string, spans: seq<Span>, k: nat)
    requires Ordered(s, spans) && 0 < k <= |spans|
    ensures var t, m := s[spans[k - 1].start..], Slices(s, spans)[k - 1];
      && |m| <= |t| && t[..|m|] == m
      && (k < |spans| ==> |m| <= spans[k].start - spans[k - 1].start <= |t|
                          && t[spans[k].start - spans[k - 1].start..] == s[spans[k].start..])
  {
    var sp := spans[k - 1];
    SliceAt(s, spans, k - 1);
    assert s[sp.start..][..sp.end - sp.start] == s[sp.start..sp.end];
  }

  /** Removing the `k`-th text keeps what was proved for the first `k - 1`. */
  lemma RemovalStep(s: string, spans: seq<Span>, k: nat)
    requires Ordered(s, spans) && 0 < k <= |spans|
    requires RemovedUpTo(s, spans, k - 1)
    ensures RemovedUpTo(s, spans, k)
  {
    var all := Slices(s, spans);
    RemoveEachStep(s, all, k);
    SpanTexts(s, spans, k);
    var t := s[spans[k - 1].start..];
    var next := if k < |spans| then spans[k].start - spans[k - 1].start else |t|;
    RemoveFirstKeepsLater(RemoveEach(s, all[..k - 1]), all[k - 1], t, next);
  }

  lemma {:induction false} RemovalProgress(s: string, spans: seq<Span>, k: nat)
    requires Ordered(s, spans) && k <= |spans|
    ensures RemovedUpTo(s, spans, k)
  {
    if k == 0 {
      assert Slices(s, spans)[..0] == [];
      if 0 < |spans| {
        assert s[|s| - |s[spans[0].start..]|..] == s[spans[0].start..];
      }
    } else {
      RemovalProgress(s, spans, k - 1);
      RemovalStep(s, spans, k);
    }
  }

  /** Removing all matches of `s` one after the other removes exactly their length. */
  lemma RemovalLength(s: string)
    ensures |RemoveEach(s, FindAll(s))| == |s| - TotalLength(FindAll(s))
  {
    var spans := FindSpans(s, 0);
    RemovalProgress(s, spans, |spans|);
    assert FindAll(s)[..|spans|] == FindAll(s);
  }

  // ---------------------------------------------------------------------
  // Overflow trimming
  // ---------------------------------------------------------------------

  /** Python's `s[k:]`, where a negative `k` counts from the end. */
  function PySliceFrom(s: string, k: int): (r: string)
    ensures |r| <= |s|
    ensures 0 <= k <= |s| ==> |r| == |s| - k
  {
    if k >= 0 then (if k <= |s| then s[k..] else [])
    else if -k <= |s| then s[|s| + k..]
    else s
  }

  /**
   * The overflow rule of `add_data`: a buffer longer than `maxBufferSize`
   * loses its first `maxBufferSize // 2` characters. Python's `//` rounds
   * toward minus infinity, as Dafny's `/` does for the divisor 2.
   */
  function Trimmed(s: string, maxBufferSize: int): (r: string)
    ensures |r| <= |s|
    ensures |s| <= maxBufferSize ==> r == s
    ensures 0 <= maxBufferSize < |s| ==> |r| == |s| - maxBufferSize / 2
  {
    if |s| > maxBufferSize then PySliceFrom(s, maxBufferSize / 2) else s
  }

  /** The trim only ever drops a prefix: the newest characters are kept. */
  lemma TrimmedKeepsEnd(s: string, maxBufferSize: int)
    ensures EndsWith(s, Trimmed(s, maxBufferSize))
  {
  }

  /**
   * The trim does not bound the buffer by `maxBufferSize`: one chunk longer
   * than one and a half times the limit is kept longer than the limit.
   */
  lemma TrimKeepsLongChunk(s: string, maxBufferSize: nat)
    requires |s| > maxBufferSize + maxBufferSize / 2
    ensures |Trimmed(s, maxBufferSize)| > maxBufferSize
  {
  }

  // ---------------------------------------------------------------------
  // The buffer object
  // ---------------------------------------------------------------------

  class Buffer {
    var buffer: string
    const maxBufferSize: int

    /** `UARTBuffer(max_buffer_size)`: an empty buffer with the given limit (1024 by default in the source). */
    constructor (maxBufferSize: int)
      ensures this.maxBufferSize == maxBufferSize && buffer == []
    {
      this.maxBufferSize := maxBufferSize;
      buffer := [];
    }

    /**
     * `add_data`: append the chunk, trim on overflow, then return every
     * match of the pattern, left to right, removing each from the buffer.
     */
    method AddData(data: string) returns (packets: seq<string>)
      modifies this
      ensures packets == FindAll(Trimmed(old(buffer) + data, maxBufferSize))
      ensures buffer == RemoveEach(Trimmed(old(buffer) + data, maxBufferSize), packets)
      ensures |buffer| == |Trimmed(old(buffer) + data, maxBufferSize)| - TotalLength(packets)
    {
      var trimmed := buffer + data;
      if |trimmed| > maxBufferSize {
        trimmed := PySliceFrom(trimmed, maxBufferSize / 2);
      }
      assert trimmed == Trimmed(old(buffer) + data, maxBufferSize);
      var matches := FindAll(trimmed);
      var rest := trimmed;
      packets := [];
      for k := 0 to |matches|
        invariant packets == matches[..k]
        invariant rest == RemoveEach(trimmed, matches[..k])
      {
        RemoveEachStep(trimmed, matches, k + 1);
        packets := packets + [matches[k]];
        rest := RemoveFirst(rest, matches[k]);
      }
      assert matches[..|matches|] == matches;
      RemovalLength(trimmed);
      buffer := rest;
    }

    /** `clear_buffer`: drop everything buffered. */
    method ClearBuffer()
      modifies this
      ensures buffer == [] && GetBufferSize() == 0
    {
      buffer := [];
    }

    /** `get_buffer_size`: the number of buffered characters. */
    function GetBufferSize(): (n: nat)
      reads this
      ensures n == |buffer|
    {
      |buffer|
    }
  }

  /**
   * The partial-data exchange of the module's demonstration: a chunk that
   * ends in the middle of a packet gives nothing; the rest of the packet
   * completes it on the next call and it comes out whole. A chunk that is
   * the whole packet gives it at once, and the empty rest gives nothing.
   */
  method SplitPacketExchange(first: string, second: string) returns (packets1: seq<string>, packets2: seq<string>)
    requires IsPacket(first + second) && |first + second| <= 1024
    ensures second != [] ==> packets1 == [] && packets2 == [first + second]
    ensures second == [] ==> packets1 == [first] && packets2 == []
  {
    var whole := first + second;
    assert whole[0..|whole|] == whole;
    MatchAtIsPacket(whole, 0, |whole|);
    var b := new Buffer(1024);
    assert [] + first == first && |first| <= |whole|;
    packets1 := b.AddData(first);
    if second != [] {
      assert whole[..|first|] == first;
      NoPacketInProperPrefix(whole, |first|);
      assert b.buffer == RemoveEach(first, []);
      packets2 := b.AddData(second);
      WholePacketFound(whole);
    } else {
      assert first == whole;
      WholePacketFound(first);
      RemoveSelf(first);
      packets2 := b.AddData(second);
      EmptyHoldsNone();
    }
  }
}
