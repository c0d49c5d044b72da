/** Placing a recorded path beneath the export target (src/export.rs). */
module Exporting {
  import opened Basics
  import Utf8

  // ----- characters -----

  /** Characters no component may contain; the separators are split on before. */
  predicate IsIllegal(c: char) {
    Utf8.IsControl(c) || c in "<>:\"|?*\\"
  }

  predicate IsSeparator(c: char) {
    c == '/' || c == '\\'
  }

  predicate IsTrailing(c: char) {
    c == ' ' || c == '.'
  }

  const RESERVED: seq<string> := [
    "CON", "PRN", "AUX", "NUL", "COM1", "COM2", "COM3", "COM4", "COM5", "COM6", "COM7", "COM8", "COM9",
    "LPT1", "LPT2", "LPT3", "LPT4", "LPT5", "LPT6", "LPT7", "LPT8", "LPT9"]

  function UpperChar(c: char): char {
    if 'a' <= c <= 'z' then (c as int - 32) as char else c
  }

  function Upper(s: string): string {
    seq(|s|, i requires 0 <= i < |s| => UpperChar(s[i]))
  }

  /** What comes before the first dot. */
  function Stem(s: string): (r: string)
    ensures r <= s && '.' !in r
    ensures r == s || (|r| < |s| && s[|r|] == '.')
  {
    if s == "" || s[0] == '.' then "" else [s[0]] + Stem(s[1..])
  }

  predicate HasReservedStem(s: string) {
    Upper(Stem(s)) in RESERVED
  }

  // ----- one component -----

  datatype Reason =
    | ParentRemoved | DriveToDirectory | IllegalReplaced | TrailingRemoved | ReducedToNothing | ReservedName
    | NothingWritable | Renamed(name: string)

  datatype Placed = Placed(kept: Option<string>, reason: Option<Reason>)

  predicate IsDrive(raw: string) {
    |raw| == 2 && (raw[0] as int) < 0x80 && raw[1] == ':'
  }

  predicate AnyIllegal(s: string) {
    exists i :: 0 <= i < |s| && IsIllegal(s[i])
  }

  function ReplaceIllegal(s: string): (r: string)
    ensures |r| == |s| && forall i :: 0 <= i < |s| ==> r[i] == if IsIllegal(s[i]) then '_' else s[i]
  {
    seq(|s|, i requires 0 <= i < |s| => if IsIllegal(s[i]) then '_' else s[i])
  }

  function TrimTrailing(s: string): (r: string)
    ensures r <= s
    ensures r != "" ==> !IsTrailing(r[|r| - 1])
    ensures s != "" && !IsTrailing(s[|s| - 1]) ==> r == s
  {
    if s != "" && IsTrailing(s[|s| - 1]) then TrimTrailing(s[..|s| - 1]) else s
  }

  /** A drive letter becomes a directory, and illegal characters become underscores. */
  function Replaced(raw: string): string {
    ReplaceIllegal(if IsDrive(raw) then raw[..1] else raw)
  }

  /** The component with trailing dots and spaces removed as well. */
  function Cleaned(raw: string): string {
    TrimTrailing(Replaced(raw))
  }

  /** `safe_component`: the component to write, none to drop it, and why it differs. */
  function SafeComponent(raw: string): Placed {
    if raw == "" || raw == "." then Placed(None, None)
    else if raw == ".." then Placed(None, Some(ParentRemoved))
    else
      var drive := if IsDrive(raw) then raw[..1] else raw;
      var reason := if IsDrive(raw) then Some(DriveToDirectory) else None;
      var replaced := if AnyIllegal(drive) then ReplaceIllegal(drive) else drive;
      var reason' := if AnyIllegal(drive) then Some(IllegalReplaced) else reason;
      var trimmed := TrimTrailing(replaced);
      if trimmed == "" then Placed(Some("_"), Some(ReducedToNothing))
      else
        var reason'' := if trimmed != replaced then Some(TrailingRemoved) else reason';
        if HasReservedStem(trimmed) then Placed(Some(trimmed + "_"), Some(ReservedName))
        else Placed(Some(trimmed), reason'')
  }

  /** A component that can be written anywhere without leaving its directory. */
  predicate IsSafe(s: string) {
    && s != "" && s != "." && s != ".."
    && (forall i :: 0 <= i < |s| ==> !IsIllegal(s[i]) && !IsSeparator(s[i]))
    && !IsTrailing(s[|s| - 1])
  }

  predicate NoSeparator(s: string) {
    forall i :: 0 <= i < |s| ==> !IsSeparator(s[i])
  }

  lemma ReplacedIs(raw: string)
    ensures var drive := if IsDrive(raw) then raw[..1] else raw;
      (if AnyIllegal(drive) then ReplaceIllegal(drive) else drive) == Replaced(raw)
  {
    var drive := if IsDrive(raw) then raw[..1] else raw;
    if !AnyIllegal(drive) {
      assert ReplaceIllegal(drive) == drive;
    }
  }

  lemma CleanedIsSafe(raw: string)
    requires NoSeparator(raw) && Cleaned(raw) != ""
    ensures IsSafe(Cleaned(raw))
  {
    var r, t := Replaced(raw), Cleaned(raw);
    forall i | 0 <= i < |t|
      ensures !IsIllegal(t[i]) && !IsSeparator(t[i])
    {
      assert t[i] == r[i];
    }
  }

  /** The component kept, whichever steps led to it. */
  lemma KeptIs(raw: string)
    requires raw != "" && raw != "." && raw != ".."
    ensures SafeComponent(raw).kept == Some(
      if Cleaned(raw) == "" then "_" else if HasReservedStem(Cleaned(raw)) then Cleaned(raw) + "_" else Cleaned(raw))
  {
    ReplacedIs(raw);
  }

  lemma UnderscoreSafe(s: string)
    requires s == "" || IsSafe(s)
    ensures IsSafe(s + "_")
  {
    var longer := s + "_";
    assert longer[|s|] == '_' && longer != "." && longer[|longer| - 1] == '_';
    assert longer != ".." by {
      assert ".."[1] == '.';
    }
    forall i | 0 <= i < |longer|
      ensures !IsIllegal(longer[i]) && !IsSeparator(longer[i])
    {
      assert longer[i] == if i < |s| then s[i] else '_';
    }
  }

  /** Whatever is kept is safe. */
  lemma KeptIsSafe(raw: string)
    requires NoSeparator(raw) && SafeComponent(raw).kept.Some?
    ensures IsSafe(SafeComponent(raw).kept.value)
  {
    var t := Cleaned(raw);
    KeptIs(raw);
    if t != "" {
      CleanedIsSafe(raw);
    }
    UnderscoreSafe(t);
  }

  /** A safe component is already clean. */
  lemma SafeIsClean(raw: string)
    requires IsSafe(raw)
    ensures !IsDrive(raw) && Replaced(raw) == raw && Cleaned(raw) == raw
  {
    if IsDrive(raw) {
      assert IsIllegal(raw[1]);
    }
    assert ReplaceIllegal(raw) == raw;
  }

  /** A reason is given exactly when the component kept is not the recorded one. */
  lemma ReasonExactlyWhenChanged(raw: string)
    requires NoSeparator(raw) && raw != "" && raw != "."
    ensures SafeComponent(raw).reason.None? <==> SafeComponent(raw).kept == Some(raw)
  {
    ReplacedIs(raw);
    if IsSafe(raw) {
      SafeIsClean(raw);
    } else if raw != ".." {
      KeptIsSafe(raw);
      if SafeComponent(raw).reason.None? {
        CleanedIsSafe(raw);
      }
    }
  }

  /** A kept component still has a stem Windows reserves exactly when a dot follows that stem: `CON.txt_`. */
  lemma ReservedStemLeftExactlyWhen(raw: string)
    requires NoSeparator(raw) && SafeComponent(raw).kept.Some?
    ensures HasReservedStem(SafeComponent(raw).kept.value) <==>
      Cleaned(raw) != "" && HasReservedStem(Cleaned(raw)) && '.' in Cleaned(raw)
  {
    ReplacedIs(raw);
    var t := Cleaned(raw);
    if t == "" {
      NotReserved("_");
    } else if HasReservedStem(t) {
      if '.' in t {
        StemOfLonger(t);
      } else {
        NoDotStem(t);
        NoDotStem(t + "_");
        NotReserved(t + "_");
      }
    }
  }

  lemma NotReserved(s: string)
    requires s != "" && s[|s| - 1] == '_' && '.' !in s
    ensures !HasReservedStem(s)
  {
    NoDotStem(s);
    var u := Upper(s);
    assert u[|u| - 1] == '_';
    assert forall k :: 0 <= k < |RESERVED| ==> RESERVED[k][|RESERVED[k]| - 1] != '_';
  }

  lemma NoDotStem(s: string)
    requires '.' !in s
    ensures Stem(s) == s
  {
  }

  lemma {:induction false} StemOfLonger(s: string)
    requires '.' in s
    ensures Stem(s + "_") == Stem(s)
  {
    if s[0] != '.' {
      assert (s + "_")[1..] == s[1..] + "_";
      StemOfLonger(s[1..]);
    }
  }

  /** Placing a component a second time changes nothing exactly when it was not left with a reserved stem. */
  lemma IdempotentExactlyWhen(raw: string)
    requires NoSeparator(raw) && SafeComponent(raw).kept.Some?
    ensures var kept := SafeComponent(raw).kept.value;
      SafeComponent(kept) == Placed(Some(kept), None) <==> !HasReservedStem(kept)
  {
    KeptIsSafe(raw);
    var kept := SafeComponent(raw).kept.value;
    SafeIsClean(kept);
    ReplacedIs(kept);
    assert !AnyIllegal(kept);
  }

  // ----- a whole path -----

  /** The pieces between separators; there is always at least one. */
  function Split(s: string): (r: seq<string>)
    ensures r != []
    ensures forall i :: 0 <= i < |r| ==> NoSeparator(r[i])
  {
    if s == "" then [""]
    else
      var r, last := Split(s[..|s| - 1]), s[|s| - 1];
      if IsSeparator(last) then r + [""] else r[|r| - 1 := r[|r| - 1] + [last]]
  }

  /** Splitting undoes joining with separators. */
  lemma {:induction false} SplitJoined(front: string, separator: char, piece: string)
    requires IsSeparator(separator) && NoSeparator(piece)
    ensures Split(front + [separator] + piece) == Split(front) + [piece]
  {
    var s := front + [separator] + piece;
    if piece == "" {
      assert s[..|s| - 1] == front;
    } else {
      var shorter := piece[..|piece| - 1];
      assert s[..|s| - 1] == front + [separator] + shorter;
      SplitJoined(front, separator, shorter);
      assert shorter + [piece[|piece| - 1]] == piece;
    }
  }

  /** The recorded components: the pieces without empty ones and `.`. */
  function Recorded(pieces: seq<string>): seq<string> {
    if pieces == [] then []
    else
      var front, last := Recorded(pieces[..|pieces| - 1]), pieces[|pieces| - 1];
      if last == "" || last == "." then front else front + [last]
  }

  function KeptOf(pieces: seq<string>): seq<string> {
    if pieces == [] then []
    else
      var front, kept := KeptOf(pieces[..|pieces| - 1]), SafeComponent(pieces[|pieces| - 1]).kept;
      if kept.Some? then front + [kept.value] else front
  }

  function ReasonsOf(pieces: seq<string>): seq<Reason> {
    if pieces == [] then []
    else
      var front, reason := ReasonsOf(pieces[..|pieces| - 1]), SafeComponent(pieces[|pieces| - 1]).reason;
      if reason.Some? then front + [reason.value] else front
  }

  /** `rebase`: the components written beneath the target, and the reasons for any that differ. */
  method Rebase(recorded: string) returns (components: seq<string>, reasons: seq<Reason>)
    ensures components == ComponentsOf(recorded) && reasons == ReasonsFor(recorded)
  {
    var pieces := Split(recorded);
    components, reasons := [], [];
    for i := 0 to |pieces|
      invariant components == KeptOf(pieces[..i]) && reasons == ReasonsOf(pieces[..i])
    {
      assert pieces[..i + 1][..i] == pieces[..i];
      var placed := SafeComponent(pieces[i]);
      if placed.reason.Some? {
        reasons := reasons + [placed.reason.value];
      }
      if placed.kept.Some? {
        components := components + [placed.kept.value];
      }
    }
    assert pieces[..|pieces|] == pieces;
    if components == [] {
      components := ["_"];
      reasons := reasons + [NothingWritable];
    }
  }

  function ComponentsOf(recorded: string): seq<string> {
    var kept := KeptOf(Split(recorded));
    if kept == [] then ["_"] else kept
  }

  function ReasonsFor(recorded: string): seq<Reason> {
    var pieces := Split(recorded);
    ReasonsOf(pieces) + (if KeptOf(pieces) == [] then [NothingWritable] else [])
  }

  predicate AllSafe(components: seq<string>) {
    forall i :: 0 <= i < |components| ==> IsSafe(components[i])
  }

  lemma {:induction false} KeptAllSafe(pieces: seq<string>)
    requires forall i :: 0 <= i < |pieces| ==> NoSeparator(pieces[i])
    ensures AllSafe(KeptOf(pieces))
  {
    if pieces != [] {
      KeptAllSafe(pieces[..|pieces| - 1]);
      if SafeComponent(pieces[|pieces| - 1]).kept.Some? {
        KeptIsSafe(pieces[|pieces| - 1]);
      }
    }
  }

  /** Whatever is recorded, at least one component is written and every one is safe: nothing leaves the target. */
  lemma RebaseConfined(recorded: string)
    ensures ComponentsOf(recorded) != [] && AllSafe(ComponentsOf(recorded))
  {
    KeptAllSafe(Split(recorded));
  }

  lemma {:induction false} KeptShorter(pieces: seq<string>)
    ensures |KeptOf(pieces)| <= |Recorded(pieces)|
  {
    if pieces != [] {
      KeptShorter(pieces[..|pieces| - 1]);
    }
  }

  lemma {:induction false} NoReasonExactlyWhenKept(pieces: seq<string>)
    requires forall i :: 0 <= i < |pieces| ==> NoSeparator(pieces[i])
    ensures ReasonsOf(pieces) == [] <==> KeptOf(pieces) == Recorded(pieces)
  {
    if pieces != [] {
      var front, last := pieces[..|pieces| - 1], pieces[|pieces| - 1];
      NoReasonExactlyWhenKept(front);
      KeptShorter(front);
      if last != "" && last != "." {
        ReasonExactlyWhenChanged(last);
        var kept := SafeComponent(last).kept;
        if kept.Some? && KeptOf(pieces) == Recorded(pieces) {
          assert KeptOf(front) == KeptOf(pieces)[..|KeptOf(pieces)| - 1];
          assert Recorded(front) == Recorded(pieces)[..|Recorded(pieces)| - 1];
        }
      }
    }
  }

  /** An alteration is reported exactly when what is written is not what was recorded. */
  lemma RebaseHonest(recorded: string)
    ensures ReasonsFor(recorded) == [] <==> ComponentsOf(recorded) == Recorded(Split(recorded))
  {
    var pieces := Split(recorded);
    NoReasonExactlyWhenKept(pieces);
    if KeptOf(pieces) == [] && Recorded(pieces) == ["_"] {
      UnderscoreKept(pieces);
    }
  }

  lemma {:induction false} UnderscoreKept(pieces: seq<string>)
    requires "_" in Recorded(pieces)
    ensures KeptOf(pieces) != []
  {
    var front, last := pieces[..|pieces| - 1], pieces[|pieces| - 1];
    if "_" in Recorded(front) {
      UnderscoreKept(front);
    } else {
      assert last == "_";
      assert SafeComponent("_").kept.Some?;
    }
  }

  // ----- names that are not text -----

  predicate IllegalByte(b: Byte) {
    b < 0x80 && IsIllegal(b as char)
  }

  predicate SeparatorByte(b: Byte) {
    b == '/' as int || b == '\\' as int
  }

  predicate TrailingByte(b: Byte) {
    b == ' ' as int || b == '.' as int
  }

  const DOT: Byte := 46
  const UNDERSCORE: Byte := 95

  datatype PlacedBytes = PlacedBytes(kept: Option<seq<Byte>>, reason: Option<Reason>)

  function ReplaceBytes(s: seq<Byte>): (r: seq<Byte>)
    ensures |r| == |s| && forall i :: 0 <= i < |s| ==> r[i] == if IllegalByte(s[i]) then UNDERSCORE else s[i]
  {
    if s == [] then []
    else
      var last := s[|s| - 1];
      ReplaceBytes(s[..|s| - 1]) + [if IllegalByte(last) then UNDERSCORE else last]
  }

  function TrimBytes(s: seq<Byte>): (r: seq<Byte>)
    ensures r <= s
    ensures r != [] ==> !TrailingByte(r[|r| - 1])
  {
    if s != [] && TrailingByte(s[|s| - 1]) then TrimBytes(s[..|s| - 1]) else s
  }

  function SafeBytes(raw: seq<Byte>): PlacedBytes {
    if raw == [] || raw == [DOT] then PlacedBytes(None, None)
    else if raw == [DOT, DOT] then PlacedBytes(None, Some(ParentRemoved))
    else
      var cleaned := TrimBytes(ReplaceBytes(raw));
      if cleaned == [] then PlacedBytes(Some([UNDERSCORE]), Some(ReducedToNothing))
      else PlacedBytes(Some(cleaned), if cleaned != raw then Some(IllegalReplaced) else None)
  }

  /** The buffer is filled byte by byte, and it is noted whether any byte was replaced. */
  method ReplaceLoop(raw: seq<Byte>) returns (cleaned: seq<Byte>, replaced: bool)
    ensures cleaned == ReplaceBytes(raw) && (replaced <==> cleaned != raw)
  {
    cleaned, replaced := [], false;
    for i := 0 to |raw|
      invariant |cleaned| == i && forall k :: 0 <= k < i ==>
        cleaned[k] == if IllegalByte(raw[k]) then UNDERSCORE else raw[k]
      invariant replaced <==> exists k :: 0 <= k < i && IllegalByte(raw[k])
    {
      if IllegalByte(raw[i]) {
        cleaned := cleaned + [UNDERSCORE];
        replaced := true;
      } else {
        cleaned := cleaned + [raw[i]];
      }
    }
    assert cleaned == ReplaceBytes(raw);
    assert !IllegalByte(UNDERSCORE);
    if replaced {
      var k :| 0 <= k < |raw| && IllegalByte(raw[k]);
      assert cleaned[k] != raw[k];
    }
  }

  /** `safe_component_bytes`: a buffer filled byte by byte, then trimmed from its end. */
  method SafeComponentBytes(raw: seq<Byte>) returns (placed: PlacedBytes)
    ensures placed == SafeBytes(raw)
  {
    if raw == [] || raw == [DOT] {
      return PlacedBytes(None, None);
    }
    if raw == [DOT, DOT] {
      return PlacedBytes(None, Some(ParentRemoved));
    }
    var cleaned, replaced := ReplaceLoop(raw);
    while cleaned != [] && TrailingByte(cleaned[|cleaned| - 1])
      invariant |cleaned| <= |raw| && TrimBytes(cleaned) == TrimBytes(ReplaceBytes(raw))
      invariant replaced <==> cleaned != raw
    {
      cleaned := cleaned[..|cleaned| - 1];
      replaced := true;
    }
    if cleaned == [] {
      return PlacedBytes(Some([UNDERSCORE]), Some(ReducedToNothing));
    }
    placed := PlacedBytes(Some(cleaned), if replaced then Some(IllegalReplaced) else None);
  }

  predicate IsSafeBytes(s: seq<Byte>) {
    && s != [] && s != [DOT] && s != [DOT, DOT]
    && (forall i :: 0 <= i < |s| ==> !IllegalByte(s[i]) && !SeparatorByte(s[i]))
    && !TrailingByte(s[|s| - 1])
  }

  lemma KeptBytesSafe(raw: seq<Byte>)
    requires forall i :: 0 <= i < |raw| ==> !SeparatorByte(raw[i])
    requires SafeBytes(raw).kept.Some?
    ensures IsSafeBytes(SafeBytes(raw).kept.value)
  {
    var r, t := ReplaceBytes(raw), TrimBytes(ReplaceBytes(raw));
    forall i | 0 <= i < |t|
      ensures !IllegalByte(t[i]) && !SeparatorByte(t[i])
    {
      assert t[i] == r[i];
    }
  }

  lemma BytesReasonExactlyWhenChanged(raw: seq<Byte>)
    requires raw != [] && raw != [DOT]
    ensures SafeBytes(raw).reason.None? <==> SafeBytes(raw).kept == Some(raw)
  {
  }

  function SplitBytes(s: seq<Byte>): (r: seq<seq<Byte>>)
    ensures r != []
    ensures forall i, j :: 0 <= i < |r| && 0 <= j < |r[i]| ==> !SeparatorByte(r[i][j])
  {
    if s == [] then [[]]
    else
      var r, last := SplitBytes(s[..|s| - 1]), s[|s| - 1];
      if SeparatorByte(last) then r + [[]] else r[|r| - 1 := r[|r| - 1] + [last]]
  }

  function KeptBytesOf(pieces: seq<seq<Byte>>): seq<seq<Byte>> {
    if pieces == [] then []
    else
      var front, kept := KeptBytesOf(pieces[..|pieces| - 1]), SafeBytes(pieces[|pieces| - 1]).kept;
      if kept.Some? then front + [kept.value] else front
  }

  function BytesReasonsOf(pieces: seq<seq<Byte>>): seq<Reason> {
    if pieces == [] then []
    else
      var front, reason := BytesReasonsOf(pieces[..|pieces| - 1]), SafeBytes(pieces[|pieces| - 1]).reason;
      if reason.Some? then front + [reason.value] else front
  }

  function EncodeAll(components: seq<string>): (r: seq<seq<Byte>>)
    ensures |r| == |components| && forall i :: 0 <= i < |r| ==> r[i] == Utf8.Encode(components[i])
  {
    seq(|components|, i requires 0 <= i < |components| => Utf8.Encode(components[i]))
  }

  /** Where recorded bytes are placed: valid UTF-8 as text, anything else component by component as bytes. */
  function ByteComponentsOf(recorded: seq<Byte>): seq<seq<Byte>> {
    match Utf8.Decode(recorded)
    case Some(text) => EncodeAll(ComponentsOf(text))
    case None =>
      var kept := KeptBytesOf(SplitBytes(recorded));
      if kept == [] then [[UNDERSCORE]] else kept
  }

  function ByteReasonsFor(recorded: seq<Byte>): seq<Reason> {
    match Utf8.Decode(recorded)
    case Some(text) => ReasonsFor(text)
    case None =>
      var pieces := SplitBytes(recorded);
      BytesReasonsOf(pieces) + (if KeptBytesOf(pieces) == [] then [NothingWritable] else [])
  }

  /** `rebase_bytes` where a file name is a byte string. */
  method RebaseBytes(recorded: seq<Byte>) returns (components: seq<seq<Byte>>, reasons: seq<Reason>)
    ensures components == ByteComponentsOf(recorded) && reasons == ByteReasonsFor(recorded)
  {
    var text := Utf8.Decode(recorded);
    if text.Some? {
      var placed;
      placed, reasons := Rebase(text.value);
      components := EncodeAll(placed);
      return;
    }
    var pieces := SplitBytes(recorded);
    components, reasons := [], [];
    for i := 0 to |pieces|
      invariant components == KeptBytesOf(pieces[..i]) && reasons == BytesReasonsOf(pieces[..i])
    {
      assert pieces[..i + 1][..i] == pieces[..i];
      var placed := SafeComponentBytes(pieces[i]);
      if placed.reason.Some? {
        reasons := reasons + [placed.reason.value];
      }
      if placed.kept.Some? {
        components := components + [placed.kept.value];
      }
    }
    assert pieces[..|pieces|] == pieces;
    if components == [] {
      components := [[UNDERSCORE]];
      reasons := reasons + [NothingWritable];
    }
  }

  /** Every component the byte path keeps is safe. */
  lemma {:induction false} BytesConfined(pieces: seq<seq<Byte>>)
    requires forall i, j :: 0 <= i < |pieces| && 0 <= j < |pieces[i]| ==> !SeparatorByte(pieces[i][j])
    ensures forall i :: 0 <= i < |KeptBytesOf(pieces)| ==> IsSafeBytes(KeptBytesOf(pieces)[i])
  {
    if pieces != [] {
      BytesConfined(pieces[..|pieces| - 1]);
      if SafeBytes(pieces[|pieces| - 1]).kept.Some? {
        KeptBytesSafe(pieces[|pieces| - 1]);
      }
    }
  }

  lemma {:induction false} EncodedChars(s: string)
    ensures forall i :: 0 <= i < |Utf8.Encode(s)| && Utf8.Encode(s)[i] < 0x80 ==> Utf8.Encode(s)[i] as char in s
  {
    if s != "" {
      var front, tail := Utf8.EncodeChar(s[0]), Utf8.Encode(s[1..]);
      EncodedChars(s[1..]);
      forall i | 0 <= i < |front + tail| && (front + tail)[i] < 0x80
        ensures (front + tail)[i] as char in s
      {
        if i < |front| {
          assert (front + tail)[i] == s[0] as int;
        } else {
          assert tail[i - |front|] as char in s[1..];
        }
      }
    }
  }

  lemma EncodedLast(s: string)
    requires s != ""
    ensures Utf8.Encode(s) != []
    ensures var last := Utf8.Encode(s)[|Utf8.Encode(s)| - 1]; last >= 0x80 || last as char == s[|s| - 1]
  {
    var front, c := s[..|s| - 1], s[|s| - 1];
    assert s == front + [c];
    Utf8.EncodeJoin(front, [c]);
    assert Utf8.Encode([c]) == Utf8.EncodeChar(c) + Utf8.Encode([]);
    assert Utf8.Encode(s) == Utf8.Encode(front) + Utf8.EncodeChar(c);
  }

  /** A safe component's bytes are safe as bytes. */
  lemma EncodedSafe(s: string)
    requires IsSafe(s)
    ensures IsSafeBytes(Utf8.Encode(s))
  {
    var b := Utf8.Encode(s);
    EncodedChars(s);
    EncodedLast(s);
    forall i | 0 <= i < |b|
      ensures !IllegalByte(b[i]) && !SeparatorByte(b[i])
    {
      if b[i] < 0x80 {
        assert b[i] as char in s;
      }
    }
    assert !TrailingByte(b[|b| - 1]);
  }

  /** Whatever bytes were recorded, there is a component to write, and every component is safe as bytes. */
  lemma RebaseBytesConfined(recorded: seq<Byte>)
    ensures ByteComponentsOf(recorded) != []
    ensures forall i :: 0 <= i < |ByteComponentsOf(recorded)| ==> IsSafeBytes(ByteComponentsOf(recorded)[i])
  {
    match Utf8.Decode(recorded) {
      case Some(text) =>
        RebaseConfined(text);
        forall c | c in ComponentsOf(text)
          ensures IsSafeBytes(Utf8.Encode(c))
        {
          EncodedSafe(c);
        }
      case None =>
        BytesConfined(SplitBytes(recorded));
    }
  }

  function RecordedBytes(pieces: seq<seq<Byte>>): seq<seq<Byte>> {
    if pieces == [] then []
    else
      var front, last := RecordedBytes(pieces[..|pieces| - 1]), pieces[|pieces| - 1];
      if last == [] || last == [DOT] then front else front + [last]
  }

  /** The byte path gives a reason exactly when what it keeps is not what was recorded. */
  lemma {:induction false} BytesHonest(pieces: seq<seq<Byte>>)
    ensures |KeptBytesOf(pieces)| <= |RecordedBytes(pieces)|
    ensures BytesReasonsOf(pieces) == [] <==> KeptBytesOf(pieces) == RecordedBytes(pieces)
  {
    if pieces != [] {
      var front, last := pieces[..|pieces| - 1], pieces[|pieces| - 1];
      BytesHonest(front);
      if last != [] && last != [DOT] {
        BytesReasonExactlyWhenChanged(last);
        var kept := SafeBytes(last).kept;
        if kept.Some? && KeptBytesOf(pieces) == RecordedBytes(pieces) {
          assert KeptBytesOf(front) == KeptBytesOf(pieces)[..|KeptBytesOf(pieces)| - 1];
          assert RecordedBytes(front) == RecordedBytes(pieces)[..|RecordedBytes(pieces)| - 1];
        }
      }
    }
  }

  // ----- a whole path of bytes -----

  lemma {:induction false} SplitWithin(s: seq<Byte>, t: seq<Byte>)
    requires forall i :: 0 <= i < |t| ==> !SeparatorByte(t[i])
    ensures SplitBytes(s + t) == var r := SplitBytes(s); r[|r| - 1 := r[|r| - 1] + t]
  {
    var r := SplitBytes(s);
    if t == [] {
      assert s + t == s && r[|r| - 1] + t == r[|r| - 1];
    } else {
      var front, last := t[..|t| - 1], t[|t| - 1];
      assert (s + t)[..|s + t| - 1] == s + front;
      SplitWithin(s, front);
      assert r[|r| - 1] + front + [last] == r[|r| - 1] + t;
    }
  }

  lemma SeparatorSplits(s: seq<Byte>, separator: Byte)
    requires SeparatorByte(separator)
    ensures SplitBytes(s + [separator]) == SplitBytes(s) + [[]]
  {
    assert (s + [separator])[..|s|] == s;
  }

  lemma EncodeSnoc(s: string, c: char)
    ensures Utf8.Encode(s + [c]) == Utf8.Encode(s) + Utf8.EncodeChar(c)
  {
    Utf8.EncodeJoin(s, [c]);
    assert Utf8.Encode([c]) == Utf8.EncodeChar(c) + Utf8.Encode([]);
  }

  lemma SeparatorEncoded(c: char)
    ensures IsSeparator(c) ==> Utf8.EncodeChar(c) == [c as int] && SeparatorByte(c as int)
    ensures !IsSeparator(c) ==> forall i :: 0 <= i < |Utf8.EncodeChar(c)| ==> !SeparatorByte(Utf8.EncodeChar(c)[i])
  {
  }

  /** The pieces of a path's bytes are the bytes of its pieces. */
  lemma {:induction false} SplitEncoded(text: string)
    ensures SplitBytes(Utf8.Encode(text)) == EncodeAll(Split(text))
  {
    if text != "" {
      var front, c := text[..|text| - 1], text[|text| - 1];
      assert text == front + [c];
      SplitEncoded(front);
      EncodeSnoc(front, c);
      SeparatorEncoded(c);
      if IsSeparator(c) {
        SeparatorSplits(Utf8.Encode(front), c as int);
      } else {
        SplitWithin(Utf8.Encode(front), Utf8.EncodeChar(c));
        EncodeSnoc(Split(front)[|Split(front)| - 1], c);
      }
    }
  }

  lemma EncodeInjective(s: string, t: string)
    requires Utf8.Encode(s) == Utf8.Encode(t)
    ensures s == t
  {
    Utf8.DecodeEncode(s);
    Utf8.DecodeEncode(t);
  }

  lemma EncodeAllInjective(a: seq<string>, b: seq<string>)
    ensures EncodeAll(a) == EncodeAll(b) <==> a == b
  {
    if EncodeAll(a) == EncodeAll(b) {
      assert |a| == |EncodeAll(b)|;
      forall i | 0 <= i < |a|
        ensures a[i] == b[i]
      {
        assert EncodeAll(a)[i] == EncodeAll(b)[i];
        EncodeInjective(a[i], b[i]);
      }
    }
  }

  lemma {:induction false} RecordedEncoded(pieces: seq<string>)
    ensures RecordedBytes(EncodeAll(pieces)) == EncodeAll(Recorded(pieces))
  {
    if pieces != [] {
      var front, last := pieces[..|pieces| - 1], pieces[|pieces| - 1];
      assert EncodeAll(pieces)[..|pieces| - 1] == EncodeAll(front);
      RecordedEncoded(front);
      assert Utf8.Encode("") == [] && Utf8.Encode(".") == [DOT] + Utf8.Encode("") == [DOT];
      if Utf8.Encode(last) == [] {
        EncodeInjective(last, "");
      }
      if Utf8.Encode(last) == [DOT] {
        EncodeInjective(last, ".");
      }
    }
  }

  lemma {:induction false} UnderscoreBytesKept(pieces: seq<seq<Byte>>)
    requires [UNDERSCORE] in RecordedBytes(pieces)
    ensures KeptBytesOf(pieces) != []
  {
    var front, last := pieces[..|pieces| - 1], pieces[|pieces| - 1];
    if [UNDERSCORE] in RecordedBytes(front) {
      UnderscoreBytesKept(front);
    } else {
      assert last == [UNDERSCORE];
    }
  }

  /** For any recorded bytes an alteration is reported exactly when what is written is not what was recorded. */
  lemma RebaseBytesHonest(recorded: seq<Byte>)
    ensures ByteReasonsFor(recorded) == [] <==> ByteComponentsOf(recorded) == RecordedBytes(SplitBytes(recorded))
  {
    match Utf8.Decode(recorded)
    case Some(text) =>
      Utf8.EncodeDecode(recorded);
      RebaseHonest(text);
      SplitEncoded(text);
      RecordedEncoded(Split(text));
      EncodeAllInjective(ComponentsOf(text), Recorded(Split(text)));
    case None =>
      var pieces := SplitBytes(recorded);
      BytesHonest(pieces);
      if KeptBytesOf(pieces) == [] && RecordedBytes(pieces) == [[UNDERSCORE]] {
        UnderscoreBytesKept(pieces);
      }
  }

  lemma TrimBytesSafe(s: seq<Byte>)
    requires IsSafeBytes(s)
    ensures ReplaceBytes(s) == s && TrimBytes(s) == s
  {
  }

  /**
   A safe component is kept as it is by the byte path, always, and by the text path exactly when Windows does not
   reserve its stem: `CON` in a name that is not UTF-8 stays `CON`.
   */
  lemma ReservedKeptAsBytes(name: string)
    requires IsSafe(name) && Utf8.IsAscii(name)
    ensures SafeBytes(Utf8.Encode(name)) == PlacedBytes(Some(Utf8.Encode(name)), None)
    ensures SafeComponent(name).kept == Some(name) <==> !HasReservedStem(name)
  {
    Utf8.EncodeAscii(name);
    TrimBytesSafe(Utf8.Encode(name));
    SafeIsClean(name);
    KeptIs(name);
  }

  const SLASH: Byte := 47

  /** A directory of some name, holding a file whose name is a byte that is no UTF-8. */
  function BesideBadByte(name: string): seq<Byte> {
    Utf8.Encode(name) + [SLASH] + [0xFF]
  }

  lemma BadByteIsNoText(name: string)
    ensures Utf8.Decode(BesideBadByte(name)) == None
  {
    var text := name + "/";
    EncodeSnoc(name, '/');
    assert BesideBadByte(name) == Utf8.Encode(text) + [0xFF];
    Utf8.BadTail(text, [0xFF]);
  }

  lemma {:induction false} OnePiece(piece: seq<Byte>)
    requires forall i :: 0 <= i < |piece| ==> !SeparatorByte(piece[i])
    ensures SplitBytes(piece) == [piece]
  {
    if piece != [] {
      var front, last := piece[..|piece| - 1], piece[|piece| - 1];
      OnePiece(front);
      assert front + [last] == piece;
    }
  }

  lemma TwoPieces(front: seq<Byte>, separator: Byte, piece: seq<Byte>)
    requires SeparatorByte(separator) && forall i :: 0 <= i < |front| ==> !SeparatorByte(front[i])
    requires forall i :: 0 <= i < |piece| ==> !SeparatorByte(piece[i])
    ensures SplitBytes(front + [separator] + piece) == [front, piece]
  {
    OnePiece(front);
    SeparatorSplits(front, separator);
    SplitWithin(front + [separator], piece);
    assert [] + piece == piece;
  }

  lemma BothKept(x: seq<Byte>, y: seq<Byte>)
    requires SafeBytes(x) == PlacedBytes(Some(x), None) && SafeBytes(y) == PlacedBytes(Some(y), None)
    ensures KeptBytesOf([x, y]) == [x, y] && BytesReasonsOf([x, y]) == []
  {
    assert [x, y][..1] == [x];
    assert KeptBytesOf([x]) == [x] && BytesReasonsOf([x]) == [];
  }

  lemma SafeBytesKept(s: seq<Byte>)
    requires IsSafeBytes(s)
    ensures SafeBytes(s) == PlacedBytes(Some(s), None)
  {
    TrimBytesSafe(s);
  }

  /** In a path that is not UTF-8 a safe component is written as it is, reserved or not, and nothing is reported. */
  lemma ReservedPathKept(name: string)
    requires IsSafe(name) && Utf8.IsAscii(name)
    ensures var recorded := BesideBadByte(name);
      && Utf8.Decode(recorded) == None
      && ByteComponentsOf(recorded) == [Utf8.Encode(name), [0xFF]] && ByteReasonsFor(recorded) == []
  {
    BadByteIsNoText(name);
    EncodedSafe(name);
    PairPlaced(Utf8.Encode(name), [0xFF]);
  }

  lemma PairPlaced(first: seq<Byte>, second: seq<Byte>)
    requires IsSafeBytes(first) && IsSafeBytes(second) && Utf8.Decode(first + [SLASH] + second) == None
    ensures ByteComponentsOf(first + [SLASH] + second) == [first, second]
    ensures ByteReasonsFor(first + [SLASH] + second) == []
  {
    TwoPieces(first, SLASH, second);
    SafeBytesKept(first);
    SafeBytesKept(second);
    BothKept(first, second);
  }

  predicate IsPlain(c: char) {
    'A' <= c <= 'Z' || '0' <= c <= '9'
  }

  lemma ReservedIsPlain(name: string)
    requires name in RESERVED
    ensures name != "" && forall i :: 0 <= i < |name| ==> IsPlain(name[i])
  {
  }

  lemma PlainIsSafe(name: string)
    requires name != "" && forall i :: 0 <= i < |name| ==> IsPlain(name[i])
    ensures IsSafe(name) && Utf8.IsAscii(name) && Upper(Stem(name)) == name
  {
    forall i | 0 <= i < |name|
      ensures !IsIllegal(name[i]) && !IsSeparator(name[i]) && !IsTrailing(name[i])
      ensures (name[i] as int) < 0x80 && UpperChar(name[i]) == name[i]
    {
      PlainChar(name[i]);
    }
    assert !IsTrailing(name[0]);
    NoDotStem(name);
    UpperSame(name);
  }

  lemma UpperSame(name: string)
    requires forall i :: 0 <= i < |name| ==> UpperChar(name[i]) == name[i]
    ensures Upper(name) == name
  {
  }

  lemma PlainChar(c: char)
    requires IsPlain(c)
    ensures !IsIllegal(c) && !IsSeparator(c) && !IsTrailing(c) && (c as int) < 0x80 && UpperChar(c) == c
  {
  }

  /** Every reserved name is such a component, and renamed in a path that is UTF-8. */
  lemma ReservedRenamed(name: string)
    requires name in RESERVED
    ensures IsSafe(name) && Utf8.IsAscii(name) && SafeComponent(name).kept == Some(name + "_")
  {
    ReservedIsPlain(name);
    PlainIsSafe(name);
    KeptWhenSafe(name);
  }

  lemma KeptWhenSafe(name: string)
    requires IsSafe(name)
    ensures SafeComponent(name).kept == Some(if HasReservedStem(name) then name + "_" else name)
  {
    SafeIsClean(name);
    KeptIs(name);
  }
}
