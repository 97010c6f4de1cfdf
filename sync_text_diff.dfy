/** A segment of a synchronised text: a run of text that one source inserted, deleted or
    kept, as `synchronization/SyncTextDiff.java` defines it. */
module SyncTextDiffs {
  import opened Wrappers

  const DELETE: int := 0
  const INSERT: int := 1
  const EQUAL: int := 2

  /** The operation of a diff-match-patch diff (the library's own enumeration). */
  datatype DmpOperation = DmpDelete | DmpInsert | DmpEqual

  /** A diff-match-patch diff: its operation and its (nullable) text. */
  datatype DmpDiff = DmpDiff(operation: DmpOperation, text: Option<string>)

  /** The segment operation `fromDiff` assigns to a library operation: the switch maps
      DELETE and INSERT to their codes and leaves every other operation at EQUAL. */
  function OperationCode(op: DmpOperation): (code: int)
    ensures code in {DELETE, INSERT, EQUAL}
    ensures code == DELETE <==> op == DmpDelete
    ensures code == INSERT <==> op == DmpInsert
  {
    match op
    case DmpDelete => DELETE
    case DmpInsert => INSERT
    case _ => EQUAL
  }

  /** The exceptions `split` throws: a diff without text (a NullPointerException on
      `diff.text`) and a cut outside the text (`substring`'s index exception). */
  datatype SplitError = NullText | IndexOutOfRange

  class SyncTextDiff {
    var source: Option<string>
    var text: Option<string>
    var operation: int

    /** The no-argument constructor: every field at Java's default. */
    constructor Empty()
      ensures source == None && text == None && operation == 0
    {
      source := None;
      text := None;
      operation := 0;
    }

    constructor (text: Option<string>, operation: int, source: Option<string>)
      ensures this.text == text && this.operation == operation && this.source == source
    {
      this.text := text;
      this.operation := operation;
      this.source := source;
    }

    method SetSource(source: Option<string>)
      modifies this`source
      ensures this.source == source
    {
      this.source := source;
    }

    method SetText(text: Option<string>)
      modifies this`text
      ensures this.text == text
    {
      this.text := text;
    }

    method SetOperation(operation: int)
      modifies this`operation
      ensures this.operation == operation
    {
      this.operation := operation;
    }

    /** The number of characters in the segment; a segment without text is empty. */
    function Length(): (n: nat)
      reads this
      ensures text.Some? ==> n == |text.value|
      ensures text.None? ==> n == 0
    {
      if text.None? then 0 else |text.value|
    }

    /** A segment with operation `op` from `src` can be coalesced with this one: the same
        operation and the same source, where a missing source matches only a missing one. */
    function CompatibleWith(op: int, src: Option<string>): (r: bool)
      reads this
      ensures r <==> op == operation && src == source
      ensures src.None? ==> (r <==> op == operation && source.None?)
    {
      op == operation && (if src.None? then source.None? else src == source)
    }

    function Compatible(other: SyncTextDiff): (r: bool)
      reads this, other
      ensures r <==> operation == other.operation && source == other.source
    {
      CompatibleWith(other.operation, other.source)
    }

    /** fromDiff: a fresh segment holding the diff's text, the given source and the
        operation code of the diff; the target device is not used. */
    static method FromDiff(diff: DmpDiff, src: Option<string>, target: Option<string>)
      returns (result: SyncTextDiff)
      ensures fresh(result)
      ensures result.text == diff.text && result.source == src
      ensures result.operation == OperationCode(diff.operation)
    {
      result := new SyncTextDiff.Empty();
      result.SetText(diff.text);
      result.SetSource(src);
      var op := EQUAL;
      match diff.operation {
        case DmpDelete => op := DELETE;
        case DmpInsert => op := INSERT;
        case DmpEqual =>
      }
      result.SetOperation(op);
    }

    /** split(diff, start): cuts `diff` at `start`; the fresh result keeps the first `start`
        characters, `diff` keeps the rest, and both carry the original source and operation.
        A diff without text, or a cut outside its text, throws before `diff` is changed. */
    static method Split(diff: SyncTextDiff, start: int) returns (r: Result<SyncTextDiff, SplitError>)
      modifies diff`text
      ensures r == Err(NullText) <==> old(diff.text).None?
      ensures r == Err(IndexOutOfRange) <==> old(diff.text).Some? && !(0 <= start <= |old(diff.text).value|)
      ensures r.Err? ==> diff.text == old(diff.text)
      ensures r.Ok? ==>
        var result := r.value;
        && fresh(result) && result != diff
        && result.text.Some? && diff.text.Some? && old(diff.text).Some?
        && result.text.value + diff.text.value == old(diff.text.value)
        && result.Length() == start
        && result.Length() + diff.Length() == old(diff.Length())
        && result.source == diff.source == old(diff.source)
        && result.operation == diff.operation == old(diff.operation)
    {
      var result := new SyncTextDiff.Empty();
      result.SetSource(diff.source);
      result.SetOperation(diff.operation);
      if diff.text.None? {
        return Err(NullText);
      }
      if !(0 <= start <= |diff.text.value|) {
        return Err(IndexOutOfRange);
      }
      result.SetText(Some(diff.text.value[..start]));
      diff.SetText(Some(diff.text.value[start..]));
      assert result.text.value + diff.text.value == old(diff.text.value);
      return Ok(result);
    }
  }

  /** Every segment is compatible with itself. */
  lemma CompatibleReflexive(d: SyncTextDiff)
    ensures d.Compatible(d)
  {
  }

  /** Compatibility does not depend on the order of the two segments. */
  lemma CompatibleSymmetric(d: SyncTextDiff, e: SyncTextDiff)
    ensures d.Compatible(e) <==> e.Compatible(d)
  {
  }

  /** Compatibility is transitive, so it partitions segments into classes. */
  lemma CompatibleTransitive(d: SyncTextDiff, e: SyncTextDiff, f: SyncTextDiff)
    requires d.Compatible(e) && e.Compatible(f)
    ensures d.Compatible(f)
  {
  }

  /** The three operation codes are distinct. */
  lemma OperationCodeInjective(a: DmpOperation, b: DmpOperation)
    ensures OperationCode(a) == OperationCode(b) <==> a == b
  {
  }
}
