/** `parse_response` (main_new.py:146-159) and the identical inline extraction of main.py:77-87:
    the first "```python" fence, the next "```" after it, and, searched independently,
    the first "```pip" fence and the next "```" after that one. */
module Parser {
  import opened Types
  import opened PyStr

  const CodeFence := "```python"
  const PipFence := "```pip"
  const Fence := "```"

  /** The slice offsets the source hard-codes; they are the lengths of the two opening fences. */
  const CodeOffset := 9
  const PipOffset := 6

  /** An opening fence is "```" followed by a tag that contains no backquote. */
  predicate IsTaggedFence(tag: string)
  {
    |tag| > |Fence| && tag[..|Fence|] == Fence && forall j :: |Fence| <= j < |tag| ==> tag[j] != '`'
  }

  /** No "```" starts inside a tagged opening fence, so the closing "```" found from one
      past the opening lies at or after the end of the tag. */
  lemma NoCloserInsideTag(s: string, tag: string, at: nat)
    requires IsTaggedFence(tag) && OccursAt(s, tag, at)
    ensures forall k :: at < k < at + |tag| ==> !OccursAt(s, Fence, k)
  {
    forall k | at < k < at + |tag|
      ensures !OccursAt(s, Fence, k)
    {
      var m := if k < at + 3 then at + 3 else k;
      assert s[m] == s[at..at + |tag|][m - at] == tag[m - at] != '`';
      assert k + 3 <= |s| ==> s[k..k + 3][m - k] == s[m];
    }
  }

  lemma TagsAreFences()
    ensures IsTaggedFence(CodeFence) && |CodeFence| == CodeOffset
    ensures IsTaggedFence(PipFence) && |PipFence| == PipOffset
  {
    assert CodeFence[..3] == Fence;
    assert PipFence[..3] == Fence;
  }

  /** The first closing fence after a found opening fence, where one exists, lies past the
      tag, so the block between them is a well-formed (possibly empty) slice. */
  lemma CloserAfterTag(s: string, tag: string, start: int, end: int)
    requires IsTaggedFence(tag)
    requires start == Find(s, tag, 0) && start != -1
    requires end == Find(s, Fence, start + 1) && end != -1
    ensures start + |tag| <= end <= |s|
  {
    FindIsFirst(s, tag, 0);
    FindIsFirst(s, Fence, start + 1);
    NoCloserInsideTag(s, tag, start);
  }

  /** `parse_response`: None where the source raises because `code` was never assigned. */
  function ParseResponse(response: string): (r: Option<Program>)
  {
    var codeStart := Find(response, CodeFence, 0);
    var codeEnd := Find(response, Fence, codeStart + 1);
    var pipStart := Find(response, PipFence, 0);
    var pipEnd := Find(response, Fence, pipStart + 1);
    if codeStart != -1 && codeEnd != -1 then
      var packages :=
        if pipStart != -1 && pipEnd != -1 then Some(Strip(Slice(response, pipStart + PipOffset, pipEnd)))
        else None;
      Some(Program(Strip(Slice(response, codeStart + CodeOffset, codeEnd)), packages))
    else None
  }

  /** The code is the trimmed text between the first "```python" and the first "```"
      after it. */
  lemma ParseCodeBlock(s: string, cs: nat, ce: nat)
    requires FirstAt(s, CodeFence, 0, cs) && FirstAt(s, Fence, cs + 1, ce)
    ensures cs + CodeOffset <= ce
    ensures ParseResponse(s).Some? && ParseResponse(s).value.code == Strip(s[cs + CodeOffset..ce])
  {
    FindReturnsFirst(s, CodeFence, 0, cs);
    FindReturnsFirst(s, Fence, cs + 1, ce);
    TagsAreFences();
    CloserAfterTag(s, CodeFence, cs, ce);
  }

  /** Without a "```python" fence there is no program: the source raises. */
  lemma NoCodeFenceNoProgram(s: string)
    requires forall k :: !OccursAt(s, CodeFence, k)
    ensures ParseResponse(s) == None
  {
    FindMissing(s, CodeFence, 0);
  }

  /** Without a "```" after the first "```python" there is no program either. */
  lemma UnclosedCodeFenceNoProgram(s: string, cs: nat)
    requires FirstAt(s, CodeFence, 0, cs)
    requires forall k :: cs < k ==> !OccursAt(s, Fence, k)
    ensures ParseResponse(s) == None
  {
    FindReturnsFirst(s, CodeFence, 0, cs);
    FindMissing(s, Fence, cs + 1);
  }

  /** The package line is the trimmed text between the first "```pip" and the first "```"
      after it, wherever that block lies relative to the code block. */
  lemma ParsePackageBlock(s: string, ps: nat, pe: nat)
    requires ParseResponse(s).Some?
    requires FirstAt(s, PipFence, 0, ps) && FirstAt(s, Fence, ps + 1, pe)
    ensures ps + PipOffset <= pe
    ensures ParseResponse(s).value.packages == Some(Strip(s[ps + PipOffset..pe]))
  {
    FindReturnsFirst(s, PipFence, 0, ps);
    FindReturnsFirst(s, Fence, ps + 1, pe);
    TagsAreFences();
    CloserAfterTag(s, PipFence, ps, pe);
  }

  /** Without a "```pip" fence there are no packages, even though a "```" searched for
      from index 0 is found whenever a code block exists. */
  lemma NoPipFenceNoPackages(s: string)
    requires forall k :: !OccursAt(s, PipFence, k)
    ensures ParseResponse(s).Some? ==> ParseResponse(s).value.packages == None
  {
    FindMissing(s, PipFence, 0);
  }

  /** An unclosed "```pip" fence gives no packages. */
  lemma UnclosedPipFenceNoPackages(s: string, ps: nat)
    requires FirstAt(s, PipFence, 0, ps)
    requires forall k :: ps < k ==> !OccursAt(s, Fence, k)
    ensures ParseResponse(s).Some? ==> ParseResponse(s).value.packages == None
  {
    FindReturnsFirst(s, PipFence, 0, ps);
    FindMissing(s, Fence, ps + 1);
  }

  /** A "```python" fence is never mistaken for a "```pip" fence. */
  lemma CodeFenceIsNotPipFence(s: string, i: nat)
    requires OccursAt(s, CodeFence, i)
    ensures !OccursAt(s, PipFence, i)
  {
    assert s[i + 4] == CodeFence[4] != PipFence[4];
  }
}
