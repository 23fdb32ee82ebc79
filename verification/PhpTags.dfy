/** `contains_php_tag` of `filetype.py`: a scan of a stream chunk by chunk for a tag that may lie across chunks. */
module PhpTags {

  newtype Byte = b: int | 0 <= b < 256

  type Bytes = seq<Byte>

  /** `<?php` and `<?=` */
  const PHP_TAGS: seq<Bytes> := [[0x3c, 0x3f, 0x70, 0x68, 0x70], [0x3c, 0x3f, 0x3d]]
  const CHUNK_SIZE := 1024 * 1024
  /** The longest tag, minus one. */
  const OVERLAP := 4

  function LowerByte(b: Byte): Byte {
    if 0x41 <= b <= 0x5a then b + 0x20 else b
  }

  function Lower(s: Bytes): (r: Bytes)
    ensures |r| == |s| && forall i :: 0 <= i < |s| ==> r[i] == LowerByte(s[i])
  {
    seq(|s|, i requires 0 <= i < |s| => LowerByte(s[i]))
  }

  predicate OccursAt(tag: Bytes, s: Bytes, i: nat) {
    i + |tag| <= |s| && s[i..i + |tag|] == tag
  }

  /** `tag in s` */
  predicate Occurs(tag: Bytes, s: Bytes) {
    exists i: nat :: i <= |s| && OccursAt(tag, s, i)
  }

  /** `any(tag in s for tag in PHP_TAGS)` */
  predicate HasTag(s: Bytes) {
    Occurs(PHP_TAGS[0], s) || Occurs(PHP_TAGS[1], s)
  }

  /** A stream; how much a read gives back is up to it, as long as it gives back something before the end. */
  class Stream {
    const content: Bytes
    var position: nat

    constructor (content: Bytes)
      ensures this.content == content && position == 0
    {
      this.content, position := content, 0;
    }

    method SeekStart()
      modifies this
      ensures position == 0
    {
      position := 0;
    }

    method Read(size: nat) returns (chunk: Bytes)
      requires position <= |content| && size > 0
      modifies this
      ensures old(position) <= position <= |content| && chunk == content[old(position)..position] && |chunk| <= size
      ensures chunk == [] ==> position == |content|
    {
      var rest := |content| - position;
      var k: nat :| k <= rest && k <= size && (rest > 0 ==> k > 0);
      chunk := content[position..position + k];
      position := position + k;
    }
  }

  /** The end of a text that `text[-OVERLAP:]` keeps. */
  function LastBytes(s: Bytes): Bytes {
    if |s| <= OVERLAP then s else s[|s| - OVERLAP..]
  }

  /** Text in front of the kept end makes no difference to what comes with the next chunk. */
  lemma OverlapIsEnough(tag: Bytes, seen: Bytes, chunk: Bytes)
    requires 0 < |tag| <= OVERLAP + 1
    ensures Occurs(tag, seen + chunk) <==> Occurs(tag, seen) || Occurs(tag, LastBytes(seen) + chunk)
  {
    hide OccursAt;
    var tail := LastBytes(seen);
    var front := seen[..|seen| - |tail|];
    assert seen == front + tail;
    assert seen + chunk == front + (tail + chunk);
    if i: nat :| i <= |seen + chunk| && OccursAt(tag, seen + chunk, i) {
      if i + |tag| <= |seen| {
        OccursInFront(tag, seen, chunk, i);
      } else {
        OccursBehind(tag, front, tail + chunk, i);
      }
    }
    if i: nat :| i <= |seen| && OccursAt(tag, seen, i) {
      OccursInFront(tag, seen, chunk, i);
    }
    if i: nat :| i <= |tail + chunk| && OccursAt(tag, tail + chunk, i) {
      OccursBehind(tag, front, tail + chunk, |front| + i);
    }
  }

  lemma OccursInFront(tag: Bytes, a: Bytes, b: Bytes, i: nat)
    ensures OccursAt(tag, a, i) <==> OccursAt(tag, a + b, i) && i + |tag| <= |a|
  {
    if i + |tag| <= |a| {
      assert (a + b)[i..i + |tag|] == a[i..i + |tag|];
    }
  }

  lemma OccursBehind(tag: Bytes, a: Bytes, b: Bytes, i: nat)
    requires |a| <= i
    ensures OccursAt(tag, a + b, i) <==> OccursAt(tag, b, i - |a|)
    ensures OccursAt(tag, b, i - |a|) ==> i <= |a + b|
  {
    if i + |tag| <= |a + b| {
      assert (a + b)[i..i + |tag|] == b[i - |a|..i - |a| + |tag|];
    }
  }

  lemma TagsOverlap(seen: Bytes, chunk: Bytes)
    ensures HasTag(seen + chunk) <==> HasTag(seen) || HasTag(LastBytes(seen) + chunk)
  {
    OverlapIsEnough(PHP_TAGS[0], seen, chunk);
    OverlapIsEnough(PHP_TAGS[1], seen, chunk);
  }

  lemma LowerAppends(a: Bytes, b: Bytes)
    ensures Lower(a + b) == Lower(a) + Lower(b)
  {}

  lemma LastOfWindow(seen: Bytes, chunk: Bytes)
    ensures LastBytes(LastBytes(seen) + chunk) == LastBytes(seen + chunk)
  {
    var tail := LastBytes(seen);
    var front := seen[..|seen| - |tail|];
    assert seen + chunk == front + (tail + chunk);
  }

  /** True iff the whole content holds a tag, whatever the chunks; the stream is left at its start. */
  method ContainsPhpTag(stream: Stream) returns (found: bool)
    modifies stream
    ensures found <==> exists i: nat :: i < |stream.content| && IsTagAt(stream.content, i)
    ensures stream.position == 0
  {
    hide HasTag, Lower, LastBytes, IsTagAt;
    HasTagMeans(stream.content);
    stream.SeekStart();
    var tail: Bytes := [];
    var content := stream.content;
    assert content[..0] == [];
    NothingSeen();
    while true
      invariant stream.position <= |content|
      invariant tail == LastBytes(Lower(content[..stream.position])) && !HasTag(Lower(content[..stream.position]))
      decreases |content| - stream.position
    {
      ghost var start := stream.position;
      var chunk := stream.Read(CHUNK_SIZE);
      if chunk == [] {
        assert content[..stream.position] == content && start == stream.position;
        found := false;
        break;
      }
      ghost var seen := Lower(content[..start]);
      assert content[..stream.position] == content[..start] + chunk;
      LowerAppends(content[..start], chunk);
      TagsOverlap(seen, Lower(chunk));
      var window := tail + Lower(chunk);
      if HasTag(window) {
        assert content == content[..stream.position] + content[stream.position..];
        LowerAppends(content[..stream.position], content[stream.position..]);
        TagsOverlap(Lower(content[..stream.position]), Lower(content[stream.position..]));
        found := true;
        break;
      }
      LastOfWindow(seen, Lower(chunk));
      tail := LastBytes(window);
    }
    stream.SeekStart();
  }

  lemma NothingSeen()
    ensures Lower([]) == [] && LastBytes([]) == [] && !HasTag([])
  {}

  // ---- What the scan is for --------------------------------------------------------------------------

  predicate IsLetter(b: Byte, upper: Byte, lower: Byte) {
    b == upper || b == lower
  }

  /** `<?php`, with letters in either case, or `<?=` at place `i`. */
  predicate IsTagAt(s: Bytes, i: nat) {
    && i + 2 < |s| && s[i] == 0x3c && s[i + 1] == 0x3f
    && (s[i + 2] == 0x3d
        || (i + 4 < |s| && IsLetter(s[i + 2], 0x50, 0x70) && IsLetter(s[i + 3], 0x48, 0x68)
            && IsLetter(s[i + 4], 0x50, 0x70)))
  }

  lemma PhpTagAt(s: Bytes, i: nat)
    requires i <= |s|
    ensures OccursAt(PHP_TAGS[0], Lower(s), i) <==>
      i + 5 <= |s| && Lower(s)[i] == 0x3c && Lower(s)[i + 1] == 0x3f && Lower(s)[i + 2] == 0x70
        && Lower(s)[i + 3] == 0x68 && Lower(s)[i + 4] == 0x70
  {
    if i + 5 <= |s| {
      var w := Lower(s)[i..i + 5];
      assert w == [w[0], w[1], w[2], w[3], w[4]];
    }
  }

  lemma EchoTagAt(s: Bytes, i: nat)
    requires i <= |s|
    ensures OccursAt(PHP_TAGS[1], Lower(s), i) <==>
      i + 3 <= |s| && Lower(s)[i] == 0x3c && Lower(s)[i + 1] == 0x3f && Lower(s)[i + 2] == 0x3d
  {
    if i + 3 <= |s| {
      var w := Lower(s)[i..i + 3];
      assert w == [w[0], w[1], w[2]];
    }
  }

  /** What the scan looks for in the lowercased content are the open tags of the content itself. */
  lemma HasTagMeans(s: Bytes)
    ensures HasTag(Lower(s)) <==> exists i: nat :: i < |s| && IsTagAt(s, i)
  {
    hide OccursAt, Lower;
    forall i: nat | i <= |s|
      ensures OccursAt(PHP_TAGS[0], Lower(s), i) || OccursAt(PHP_TAGS[1], Lower(s), i) <==> i < |s| && IsTagAt(s, i)
    {
      PhpTagAt(s, i);
      EchoTagAt(s, i);
    }
    if i: nat :| i < |s| && IsTagAt(s, i) {
      assert OccursAt(PHP_TAGS[0], Lower(s), i) || OccursAt(PHP_TAGS[1], Lower(s), i);
    }
    if HasTag(Lower(s)) {
      var k := if Occurs(PHP_TAGS[0], Lower(s)) then 0 else 1;
      var i: nat :| i <= |s| && OccursAt(PHP_TAGS[k], Lower(s), i);
      assert IsTagAt(s, i);
    }
  }

  /** `i` is the place of the first comma. */
  predicate IsFirstComma(s: string, i: nat) {
    i < |s| && s[i] == ',' && ',' !in s[..i]
  }

  /** The text from its first comma on. */
  function FromComma(s: string): (r: string)
    ensures ',' !in s ==> r == ""
    ensures forall i: nat :: IsFirstComma(s, i) ==> r == s[i..]
  {
    if s == "" || s[0] == ',' then
      assert forall i: nat :: IsFirstComma(s, i) ==> i > 0 ==> s[0] in s[..i];
      s
    else
      assert forall i: nat :: IsFirstComma(s, i) ==> IsFirstComma(s[1..], i - 1) && s[i..] == s[1..][i - 1..] by {
        CommaBehind(s);
      }
      FromComma(s[1..])
  }

  lemma CommaBehind(s: string)
    requires s != "" && s[0] != ','
    ensures forall i: nat :: IsFirstComma(s, i) ==> i > 0 && IsFirstComma(s[1..], i - 1) && s[i..] == s[1..][i - 1..]
  {
    forall i: nat | IsFirstComma(s, i) ensures i > 0 && IsFirstComma(s[1..], i - 1) && s[i..] == s[1..][i - 1..] {
      assert forall c :: c in s[1..][..i - 1] ==> c in s[..i];
    }
  }

  predicate StartsWithPhp(s: string) {
    |s| >= 3 && s[..3] == "PHP"
  }

  /** `refine_file_type` */
  method RefineFileType(stream: Stream, verdict: string) returns (r: string)
    modifies stream
    ensures var isPhp := exists i: nat :: i < |stream.content| && IsTagAt(stream.content, i);
      && (StartsWithPhp(r) <==> StartsWithPhp(verdict) || isPhp)
      && r == if !StartsWithPhp(verdict) && isPhp then "PHP script" + FromComma(verdict) else verdict
  {
    if StartsWithPhp(verdict) {
      return verdict;
    }
    var found := ContainsPhpTag(stream);
    if !found {
      return verdict;
    }
    r := "PHP script" + FromComma(verdict);
    assert r[..3] == "PHP";
  }
}
