/**
 * One ingested log line and the policy that extracts message, time and level
 * from a JSON object line (tbuf/line.go). JSON decoding itself is an oracle:
 * a `Json` value supplies the decoders that `encoding/json` would run.
 */
module Lines {
  import opened Wrappers
  import opened Decimal

  /**
   * One undecoded JSON value (`json.RawMessage`), held as the characters its
   * UTF-8 bytes encode; `Utf8Len` gives its length in bytes.
   */
  type Raw = string

  /** The number of bytes UTF-8 encodes a character in. */
  function Utf8Width(c: char): (n: nat)
    ensures 1 <= n <= 4
    ensures n == 1 <==> c as int < 0x80
  {
    if c as int < 0x80 then 1
    else if c as int < 0x800 then 2
    else if c as int < 0x1_0000 then 3
    else 4
  }

  /** `len` of a string in Go: its length in UTF-8 bytes. */
  function Utf8Len(s: string): (n: nat)
    ensures |s| <= n <= 4 * |s|
    ensures s == [] <==> n == 0
  {
    if s == [] then 0 else Utf8Width(s[0]) + Utf8Len(s[1..])
  }

  /** Byte lengths add up over concatenation. */
  lemma {:induction false} Utf8LenAppend(a: string, b: string)
    ensures Utf8Len(a + b) == Utf8Len(a) + Utf8Len(b)
  {
    if a == [] {
      assert a + b == b;
    } else {
      assert (a + b)[0] == a[0] && (a + b)[1..] == a[1..] + b;
      Utf8LenAppend(a[1..], b);
    }
  }

  /** The byte length equals the character count exactly when every character is ASCII. */
  lemma {:induction false} Utf8LenAscii(s: string)
    ensures Utf8Len(s) == |s| <==> forall k :: 0 <= k < |s| ==> s[k] as int < 0x80
  {
    if s != [] {
      Utf8LenAscii(s[1..]);
      assert forall k :: 1 <= k < |s| ==> s[k] == s[1..][k - 1];
    }
  }

  /** `time.Time`: the zero value, or some instant. */
  datatype Time = Zero | Instant(t: int)

  datatype Line = Line(
    str: string,              // the raw line, as read
    short: string,            // extracted human message, "" when none
    tags: map<string, Raw>,   // the remaining JSON fields
    time: Time,
    level: string,
    mark: bool)

  /** `Line{}`, returned when there is no line to return. */
  const EmptyLine: Line := Line("", "", map[], Zero, "", false)

  /** A line that is kept as plain text. */
  function Opaque(s: string): Line {
    Line(s, "", map[], Zero, "", false)
  }

  /**
   * The decoders of `encoding/json` that the parser uses. As in Go, the JSON
   * literal `null` decodes without error into a string (giving "") and into
   * a time (leaving it zero).
   */
  datatype Json = Json(
    objectOf: string -> Option<map<string, Raw>>,  // Unmarshal into map[string]RawMessage
    stringOf: Raw -> Option<string>,               // Unmarshal into string
    timeOf: Raw -> Option<Time>)                   // Unmarshal into time.Time

  const MessageKey := "message"
  const MsgKey := "msg"
  const TimeKey := "time"
  const LevelKey := "level"

  /** `unmarshalOrString`: the text of a JSON string, or the raw bytes of anything else. */
  function UnmarshalOrString(js: Json, j: Raw): (r: string)
    ensures js.stringOf(j).Some? ==> r == js.stringOf(j).value
    ensures js.stringOf(j).None? ==> r == j
  {
    match js.stringOf(j)
    case Some(s) => s
    case None => j
  }

  /** The parser only decodes lines of two or more characters that open with `{`. */
  predicate Structured(s: string, js: Json) {
    |s| >= 2 && s[0] == '{' && js.objectOf(s).Some?
  }

  /** Seconds from 1970-01-01 back to 0001-01-01 UTC, the instant of the zero `time.Time`. */
  const ZeroEpoch := -62135596800

  /** `time.Unix(epoch, 0)`: the zero epoch gives the zero time, any other an instant. */
  function Unix(epoch: int): (t: Time)
    ensures t.Zero? <==> epoch == ZeroEpoch
    ensures t.Instant? ==> t.t == epoch
  {
    if epoch == ZeroEpoch then Zero else Instant(epoch)
  }

  /** The time a "time" field decodes to: a timestamp, else integer epoch seconds. */
  function TimeValue(js: Json, j: Raw): Option<Time> {
    match js.timeOf(j)
    case Some(t) => Some(t)
    case None =>
      match ParseInt(j)
      case Some(epoch) => Some(Unix(epoch))
      case None => None
  }

  /**
   * The fields the parser removes from the tag map. "msg" is never removed:
   * the source deletes "message" in that branch too.
   */
  predicate Consumed(js: Json, m: map<string, Raw>, k: string) {
    || k == MessageKey
    || (k == TimeKey && k in m && TimeValue(js, m[k]).Some?)
    || (k == LevelKey && k in m && js.stringOf(m[k]).Some?)
  }

  /** The short message: "message" wins over "msg". */
  function ShortOf(js: Json, m: map<string, Raw>): string {
    if MessageKey in m then UnmarshalOrString(js, m[MessageKey])
    else if MsgKey in m then UnmarshalOrString(js, m[MsgKey])
    else ""
  }

  /** What `ParseLine(s)` yields, stated field by field. */
  ghost predicate Parsed(s: string, js: Json, out: Line) {
    && out.str == s
    && !out.mark
    && (!Structured(s, js) ==> out == Opaque(s))
    && (Structured(s, js) ==>
          var m := js.objectOf(s).value;
          && out.short == ShortOf(js, m)
          && out.time == (if TimeKey in m && TimeValue(js, m[TimeKey]).Some?
                          then TimeValue(js, m[TimeKey]).value else Zero)
          && out.level == (if LevelKey in m && js.stringOf(m[LevelKey]).Some?
                           then js.stringOf(m[LevelKey]).value else "")
          && (forall k :: k in out.tags <==> k in m && !Consumed(js, m, k))
          && (forall k :: k in out.tags ==> out.tags[k] == m[k]))
  }

  /**
   * A "time" field holding the integer text of the zero epoch is consumed,
   * yet leaves the line without a time, so no time column is drawn for it.
   */
  lemma ZeroEpochIsNoTime(s: string, js: Json, out: Line)
    requires Structured(s, js) && Parsed(s, js, out)
    requires TimeKey in js.objectOf(s).value
    requires js.timeOf(js.objectOf(s).value[TimeKey]).None?
    requires js.objectOf(s).value[TimeKey] == FormatInt(ZeroEpoch)
    ensures out.time.Zero? && TimeKey !in out.tags
  {
    ParseFormatRoundTrip(ZeroEpoch);
  }

  /** `Parsed` describes exactly one line for each input. */
  lemma ParsedIsDeterministic(s: string, js: Json, a: Line, b: Line)
    requires Parsed(s, js, a) && Parsed(s, js, b)
    ensures a == b
  {
    if Structured(s, js) {
      assert a.tags.Keys == b.tags.Keys;
      assert a.tags == b.tags;
    }
  }

  /**
   * `ParseLine`: copy the text; for a structured line remove and interpret
   * "message"/"msg", "time" and "level" one after the other.
   */
  method ParseLine(s: string, js: Json) returns (out: Line)
    ensures Parsed(s, js, out)
  {
    out := Opaque(s);
    if |s| < 2 {
      return;
    }
    if s[0] == '{' {
      var decoded := js.objectOf(s);
      if decoded.None? {
        return;   // "can't unmarshal" goes to the diagnostic log
      }
      var m := decoded.value;
      var tags := m;
      var short := "";
      if MessageKey in tags {
        short := UnmarshalOrString(js, tags[MessageKey]);
        tags := tags - {MessageKey};
      } else if MsgKey in tags {
        short := UnmarshalOrString(js, tags[MsgKey]);
        tags := tags - {MessageKey};
      }
      var time := Zero;
      if TimeKey in tags {
        var t := js.timeOf(tags[TimeKey]);
        if t.Some? {
          time := t.value;
          tags := tags - {TimeKey};
        } else {
          var epoch := ParseInt(tags[TimeKey]);
          if epoch.Some? {
            time := Unix(epoch.value);
            tags := tags - {TimeKey};
          }
        }
      }
      var level := "";
      if LevelKey in tags {
        var l := js.stringOf(tags[LevelKey]);
        if l.Some? {
          level := l.value;
          tags := tags - {LevelKey};
        }
      }
      out := Line(s, short, tags, time, level, false);
    }
  }

  /** Byte-wise string order, as `sort.Strings` uses (UTF-8 byte order is code-point order). */
  predicate Below(a: string, b: string) {
    if |a| == 0 then |b| > 0
    else if |b| == 0 then false
    else if a[0] == b[0] then Below(a[1..], b[1..])
    else a[0] < b[0]
  }

  lemma {:induction false} BelowIrreflexive(a: string)
    ensures !Below(a, a)
  {
    if |a| > 0 {
      BelowIrreflexive(a[1..]);
    }
  }

  lemma {:induction false} BelowTransitive(a: string, b: string, c: string)
    requires Below(a, b) && Below(b, c)
    ensures Below(a, c)
  {
    if |a| > 0 && |b| > 0 && |c| > 0 && a[0] == b[0] && b[0] == c[0] {
      BelowTransitive(a[1..], b[1..], c[1..]);
    }
  }

  lemma {:induction false} BelowTotal(a: string, b: string)
    requires a != b
    ensures Below(a, b) || Below(b, a)
  {
    if |a| > 0 && |b| > 0 && a[0] == b[0] {
      assert a == [a[0]] + a[1..] && b == [b[0]] + b[1..];
      BelowTotal(a[1..], b[1..]);
    }
  }

  /** Strictly ascending, hence also free of duplicates. */
  ghost predicate Sorted(s: seq<string>) {
    forall i, j :: 0 <= i < j < |s| ==> Below(s[i], s[j])
  }

  /** Putting `x` between the keys below it and the keys above it keeps a sequence ascending. */
  lemma SortedSplice(s: seq<string>, x: string, q: nat)
    requires Sorted(s) && q <= |s|
    requires forall i :: 0 <= i < q ==> Below(s[i], x)
    requires forall j :: q <= j < |s| ==> Below(x, s[j])
    ensures Sorted(s[..q] + [x] + s[q..])
  {
    var r := s[..q] + [x] + s[q..];
    forall i, j | 0 <= i < j < |r|
      ensures Below(r[i], r[j])
    {
      assert r[i] == if i < q then s[i] else if i == q then x else s[i - 1];
      assert r[j] == if j < q then s[j] else if j == q then x else s[j - 1];
    }
  }

  /** Insert a new key into an ascending sequence of keys. */
  method Insert(s: seq<string>, x: string) returns (r: seq<string>)
    requires Sorted(s) && x !in s
    ensures Sorted(r)
    ensures forall k :: k in r <==> k in s || k == x
    ensures |r| == |s| + 1
  {
    var q := 0;
    while q < |s| && Below(s[q], x)
      invariant 0 <= q <= |s|
      invariant forall i :: 0 <= i < q ==> Below(s[i], x)
    {
      q := q + 1;
    }
    forall j | q <= j < |s|
      ensures Below(x, s[j])
    {
      BelowTotal(s[q], x);
      if j > q {
        BelowTransitive(x, s[q], s[j]);
      }
    }
    SortedSplice(s, x, q);
    r := s[..q] + [x] + s[q..];
    assert forall k :: k in s <==> k in s[..q] || k in s[q..] by {
      assert s == s[..q] + s[q..];
    }
  }

  /** `SortedTags`: collect the tag names in map order, then sort them. */
  method SortedTags(l: Line) returns (out: seq<string>)
    ensures Sorted(out)
    ensures forall k :: k in out <==> k in l.tags
    ensures |out| == |l.tags|
  {
    var keys: seq<string> := [];
    var rest := l.tags.Keys;
    while rest != {}
      invariant rest <= l.tags.Keys
      invariant forall k :: k in keys <==> k in l.tags && k !in rest
      invariant forall i, j :: 0 <= i < j < |keys| ==> keys[i] != keys[j]
      invariant |keys| + |rest| == |l.tags|
      decreases |rest|
    {
      var k :| k in rest;
      keys := keys + [k];
      rest := rest - {k};
    }
    out := [];
    var i := 0;
    while i < |keys|
      invariant 0 <= i <= |keys|
      invariant Sorted(out)
      invariant forall k :: k in out <==> k in keys[..i]
      invariant |out| == i
    {
      assert keys[i] !in keys[..i];
      out := Insert(out, keys[i]);
      assert keys[..i + 1] == keys[..i] + [keys[i]];
      i := i + 1;
    }
    assert keys[..i] == keys;
  }
}
