/**
 The positional configuration loader `get_in_args`: every line of the input
 file whose white-space-stripped form is non-empty and does not start with
 `#` is a record; the value of the k-th record (the stripped line up to its
 first `#`) goes to slot k of the caller's `args_struct`, converted with
 `atoi` for slots 1-5 and copied for slots 6-54; records past the 54th are
 counted but stored nowhere. The load succeeds exactly when there are 54
 records. The file is given as its sequence of lines, or as `None` when it
 cannot be opened.
 */
module Loader {
  import opened CString
  import opened ArgsStruct

  datatype Option<T> = None | Some(value: T)

  /** The return codes: `OK` and `ERROR_FILE`. */
  datatype Status = Ok | ErrorFile

  /**
   A line is a record unless its stripped form is empty or starts with `#`:
   exactly when the line has a non-blank character and the first one is not `#`.
   */
  predicate IsRecordLine(line: string)
    ensures IsRecordLine(line) <==> SkipSpaces(line) != [] && SkipSpaces(line)[0] != '#'
  {
    RmWhitespStartsAtFirstNonSpace(line);
    var cln := RmWhitesp(line);
    cln != [] && cln[0] != '#'
  }

  /**
   The value a line carries: its stripped form cut at the first `#`. It is a
   prefix of the stripped line, free of white space and `#`, stops only at a
   `#`, and is non-empty for a record line.
   */
  function FieldValue(line: string): (v: string)
    ensures v <= RmWhitesp(line) && NoSpace(v) && '#' !in v
    ensures |v| < |RmWhitesp(line)| ==> RmWhitesp(line)[|v|] == '#'
    ensures IsRecordLine(line) ==> v != []
  {
    StripComment(RmWhitesp(line))
  }

  /**
   The values of the record lines, in file order: the k-th of them is the
   value for slot k.
   */
  function Records(lines: seq<string>): (vals: seq<string>)
    ensures |vals| <= |lines|
  {
    if lines == [] then [] else LineRecord(lines[0]) + Records(lines[1..])
  }

  /** What one line adds to the records: its value if it is a record line, nothing otherwise. */
  function LineRecord(line: string): (here: seq<string>)
    ensures |here| <= 1
  {
    if IsRecordLine(line) then [FieldValue(line)] else []
  }

  /** A line of white space only is not a record. */
  lemma BlankLineIgnored(line: string)
    requires AllSpace(line)
    ensures !IsRecordLine(line)
  {
    RmWhitespOfAllSpace(line);
  }

  /** A line whose first non-blank character is `#` is not a record, whatever follows. */
  lemma CommentLineIgnored(lead: string, text: string)
    requires AllSpace(lead)
    ensures !IsRecordLine(lead + ['#'] + text)
  {
    RmWhitespAppend(lead + ['#'], text);
    RmWhitespAppend(lead, ['#']);
    RmWhitespOfAllSpace(lead);
    assert RmWhitesp(['#']) == ['#'] by {
      assert ['#'][1..] == [];
    }
  }

  /**
   A value surrounded by blanks and followed by a trailing comment, as in
   `   foo.csv   # description`, is a record whose value is exactly `foo.csv`.
   */
  lemma InlineCommentStripped(lead: string, v: string, gap: string, comment: string)
    requires AllSpace(lead) && AllSpace(gap)
    requires v != [] && NoSpace(v) && '#' !in v
    ensures IsRecordLine(lead + v + gap + ['#'] + comment)
    ensures FieldValue(lead + v + gap + ['#'] + comment) == v
  {
    var line := lead + v + gap + ['#'] + comment;
    RmWhitespAppend(lead + v + gap + ['#'], comment);
    RmWhitespAppend(lead + v + gap, ['#']);
    RmWhitespAppend(lead + v, gap);
    RmWhitespAppend(lead, v);
    RmWhitespOfAllSpace(lead);
    RmWhitespOfAllSpace(gap);
    RmWhitespOfNoSpace(v);
    RmWhitespOfNoSpace(['#']);
    assert RmWhitesp(line) == v + ['#'] + RmWhitesp(comment);
    StripCommentOfComment(v, RmWhitesp(comment));
  }

  /**
   What slot `k` receives from the value `v`: `atoi` for an integer slot, a
   copy otherwise. The result has the kind of the slot it goes to.
   */
  function Convert(k: int, v: string): (r: Value)
    ensures r.IntValue? <==> IsIntSlot(k)
    ensures r.IntValue? ==> r.n == Atoi(v)
    ensures r.StrValue? ==> r.s == v
  {
    if IsIntSlot(k) then IntValue(Atoi(v)) else StrValue(v)
  }

  /** The integer slots after records `vals` were stored over `prev`. */
  function FillInts(prev: seq<int>, vals: seq<string>): seq<int>
    requires |prev| == NUM_INT_ARGS
  {
    seq(NUM_INT_ARGS, i requires 0 <= i < NUM_INT_ARGS =>
      if i < |vals| then Atoi(vals[i]) else prev[i])
  }

  /** The string slots after records `vals` were stored over `prev`. */
  function FillStrs(prev: seq<string>, vals: seq<string>): seq<string>
    requires |prev| == NUM_STR_ARGS
  {
    seq(NUM_STR_ARGS, i requires 0 <= i < NUM_STR_ARGS =>
      if NUM_INT_ARGS + i < |vals| then vals[NUM_INT_ARGS + i] else prev[i])
  }

  /** Every record value is non-empty and holds neither white space nor `#`. */
  lemma {:induction false} RecordValuesWellFormed(lines: seq<string>)
    ensures forall i :: 0 <= i < |Records(lines)| ==>
      Records(lines)[i] != [] && '#' !in Records(lines)[i] && NoSpace(Records(lines)[i])
  {
    if lines != [] {
      RecordValuesWellFormed(lines[1..]);
    }
  }

  /** The records of a file are the records of its first part followed by those of the rest. */
  lemma {:induction false} RecordsAppend(a: seq<string>, b: seq<string>)
    ensures Records(a + b) == Records(a) + Records(b)
  {
    if a == [] {
      assert a + b == b;
    } else {
      assert (a + b)[0] == a[0];
      assert (a + b)[1..] == a[1..] + b;
      RecordsAppend(a[1..], b);
      var here := LineRecord(a[0]);
      assert Records(a + b) == here + (Records(a[1..]) + Records(b));
      assert Records(a) == here + Records(a[1..]);
    }
  }

  /** Reading one more line adds its value when it is a record line, and nothing otherwise. */
  lemma RecordsSnoc(lines: seq<string>, line: string)
    ensures Records(lines + [line]) ==
      Records(lines) + if IsRecordLine(line) then [FieldValue(line)] else []
  {
    RecordsAppend(lines, [line]);
  }

  /**
   A blank or comment line, wherever it stands, neither counts as a record
   nor changes any record's value.
   */
  lemma SkippedLineIgnored(before: seq<string>, line: string, after: seq<string>)
    requires !IsRecordLine(line)
    ensures Records(before + [line] + after) == Records(before + after)
  {
    RecordsAppend(before + [line], after);
    RecordsAppend(before, [line]);
    RecordsAppend(before, after);
  }

  /**
   A record line whose predecessors hold r records is record number r+1:
   its value is the (r+1)-th value.
   */
  lemma RecordAtRank(lines: seq<string>, j: int)
    requires 0 <= j < |lines| && IsRecordLine(lines[j])
    ensures |Records(lines[..j])| < |Records(lines)|
    ensures Records(lines)[|Records(lines[..j])|] == FieldValue(lines[j])
  {
    assert lines == lines[..j] + [lines[j]] + lines[j + 1..];
    RecordsAppend(lines[..j] + [lines[j]], lines[j + 1..]);
    RecordsSnoc(lines[..j], lines[j]);
  }

  /**
   After records `vals` are stored, slot k holds the k-th value converted
   for its kind when there are at least k values, and its earlier content
   otherwise.
   */
  lemma FilledSlots(ints: seq<int>, strs: seq<string>, vals: seq<string>)
    requires WellSized(ints, strs)
    ensures forall k :: IsSlot(k) ==>
      SlotOf(FillInts(ints, vals), FillStrs(strs, vals), k) ==
        if k <= |vals| then Convert(k, vals[k - 1]) else SlotOf(ints, strs, k)
  {
  }

  /**
   The record line that is the k-th record (k <= 54) fills slot k with its
   value, whatever the earlier contents of the record were.
   */
  lemma KthRecordLineFillsSlotK(ints: seq<int>, strs: seq<string>, lines: seq<string>, j: int)
    requires WellSized(ints, strs)
    requires 0 <= j < |lines| && IsRecordLine(lines[j])
    requires |Records(lines[..j])| < NUM_IN_ARGS
    ensures var k := |Records(lines[..j])| + 1;
      SlotOf(FillInts(ints, Records(lines)), FillStrs(strs, Records(lines)), k) ==
        Convert(k, FieldValue(lines[j]))
  {
    RecordAtRank(lines, j);
    FilledSlots(ints, strs, Records(lines));
  }

  /**
   Once 54 records have been read, further lines (records or not) change
   no slot.
   */
  lemma TrailingLinesIgnored(ints: seq<int>, strs: seq<string>, lines: seq<string>, more: seq<string>)
    requires WellSized(ints, strs)
    requires |Records(lines)| >= NUM_IN_ARGS
    ensures FillInts(ints, Records(lines + more)) == FillInts(ints, Records(lines))
    ensures FillStrs(strs, Records(lines + more)) == FillStrs(strs, Records(lines))
  {
    RecordsAppend(lines, more);
    FillIgnoresExtra(ints, strs, Records(lines), Records(more));
  }

  /** Values past the 54th are stored nowhere. */
  lemma FillIgnoresExtra(ints: seq<int>, strs: seq<string>, vals: seq<string>, extra: seq<string>)
    requires WellSized(ints, strs)
    requires |vals| >= NUM_IN_ARGS
    ensures FillInts(ints, vals + extra) == FillInts(ints, vals)
    ensures FillStrs(strs, vals + extra) == FillStrs(strs, vals)
  {
  }

  /**
   With 54 records every slot is overwritten: the loaded record does not
   depend on what the caller's storage held before.
   */
  lemma CompleteLoadIgnoresPrior(ints: seq<int>, strs: seq<string>, ints': seq<int>, strs': seq<string>, vals: seq<string>)
    requires WellSized(ints, strs) && WellSized(ints', strs')
    requires |vals| >= NUM_IN_ARGS
    ensures FillInts(ints, vals) == FillInts(ints', vals)
    ensures FillStrs(strs, vals) == FillStrs(strs', vals)
  {
  }

  /** Storing the same records a second time changes nothing. */
  lemma ReloadIdempotent(ints: seq<int>, strs: seq<string>, vals: seq<string>)
    requires WellSized(ints, strs)
    ensures FillInts(FillInts(ints, vals), vals) == FillInts(ints, vals)
    ensures FillStrs(FillStrs(strs, vals), vals) == FillStrs(strs, vals)
  {
  }

  /** One more record changes `FillInts`/`FillStrs` in its own slot only: the step `GetInArgs`'s loop relies on. */
  lemma FillSnoc(ints: seq<int>, strs: seq<string>, vals: seq<string>, v: string)
    requires WellSized(ints, strs)
    ensures FillInts(ints, vals + [v]) ==
      if IsIntSlot(|vals| + 1) then FillInts(ints, vals)[|vals| := Atoi(v)] else FillInts(ints, vals)
    ensures FillStrs(strs, vals + [v]) ==
      if IsSlot(|vals| + 1) && !IsIntSlot(|vals| + 1)
      then FillStrs(strs, vals)[|vals| - NUM_INT_ARGS := v]
      else FillStrs(strs, vals)
  {
  }

  /**
   One pass of `GetInArgs`'s loop: line i adds its value to the records
   read so far when it is a record line, and leaves them as they are
   otherwise.
   */
  lemma ScanStep(lines: seq<string>, i: int)
    requires 0 <= i < |lines|
    ensures Records(lines[..i + 1]) == Records(lines[..i]) + LineRecord(lines[i])
  {
    assert lines[..i + 1] == lines[..i] + [lines[i]];
    RecordsSnoc(lines[..i], lines[i]);
  }

  /**
   The `switch (count)`: record number `count` goes to slot `count`
   (`atoi` for slots 1-5, a copy for 6-54); any other number stores nothing.
   */
  method SetInputVariable(inArgs: InArgs, count: int, fldStr: string)
    requires inArgs.Valid()
    modifies inArgs
    ensures inArgs.Valid()
    ensures inArgs.ints ==
      if IsIntSlot(count) then old(inArgs.ints)[count - 1 := Atoi(fldStr)] else old(inArgs.ints)
    ensures inArgs.strs ==
      if IsSlot(count) && !IsIntSlot(count)
      then old(inArgs.strs)[count - 1 - NUM_INT_ARGS := fldStr]
      else old(inArgs.strs)
  {
    if IsIntSlot(count) {
      inArgs.ints := inArgs.ints[count - 1 := Atoi(fldStr)];
    } else if IsSlot(count) {
      inArgs.strs := inArgs.strs[count - 1 - NUM_INT_ARGS := fldStr];
    }
  }

  /**
   `get_in_args`: when the file opens, the record's slots become the file's
   records stored over the earlier contents (so a failing load may leave the
   record partly filled), and the result is `Ok` exactly when the file holds
   54 records. When the file does not open, nothing is written.
   */
  method GetInArgs(file: Option<seq<string>>, inArgs: InArgs) returns (status: Status)
    requires inArgs.Valid()
    modifies inArgs
    ensures inArgs.Valid()
    ensures file.None? ==> inArgs.ints == old(inArgs.ints) && inArgs.strs == old(inArgs.strs)
    ensures file.Some? ==>
      && inArgs.ints == FillInts(old(inArgs.ints), Records(file.value))
      && inArgs.strs == FillStrs(old(inArgs.strs), Records(file.value))
    ensures file.Some? ==> forall k :: IsSlot(k) ==>
      inArgs.Slot(k) == if k <= |Records(file.value)| then Convert(k, Records(file.value)[k - 1])
                        else old(inArgs.Slot(k))
    ensures status == Ok <==> file.Some? && |Records(file.value)| == NUM_IN_ARGS
  {
    if file.None? {
      return ErrorFile;
    }
    var lines := file.value;
    ghost var ints0, strs0 := inArgs.ints, inArgs.strs;
    var count := 0;
    var i := 0;
    while i < |lines|
      invariant 0 <= i <= |lines|
      invariant inArgs.Valid()
      invariant count == |Records(lines[..i])|
      invariant inArgs.ints == FillInts(ints0, Records(lines[..i]))
      invariant inArgs.strs == FillStrs(strs0, Records(lines[..i]))
    {
      ghost var seen := Records(lines[..i]);
      ScanStep(lines, i);
      var clnStr := RmWhitesp(lines[i]);
      if clnStr != [] && clnStr[0] != '#' {
        count := count + 1;
        var length := Strcspn(clnStr, '#');
        var fldStr := clnStr[..length];
        assert LineRecord(lines[i]) == [fldStr];
        FillSnoc(ints0, strs0, seen, fldStr);
        SetInputVariable(inArgs, count, fldStr);
      } else {
        assert LineRecord(lines[i]) == [];
        assert seen + [] == seen;
      }
      i := i + 1;
    }
    assert lines[..i] == lines;
    FilledSlots(ints0, strs0, Records(lines));
    if count != NUM_IN_ARGS {
      return ErrorFile;
    }
    return Ok;
  }
}
