/**
 * The key of one page of a parent's children in a federated source:
 * `parentId#offset#blockSize`, where the offset is an opaque string that is
 * usually an integer and the block size is a Java `long`.
 */
module PageKeys {
  import opened Common

  const Separator: char := '#'

  /** The value built by the three-argument constructor. */
  datatype PageKey = PageKey(parentId: string, offset: string, blockSize: Long)

  /** The IllegalArgumentException cases. */
  datatype PageKeyError =
    | MalformedKey(key: string)      // not exactly three parts
    | InvalidBlockSize(part: string) // third part is not a long
    | BlankParentId                  // withParentId given a blank id

  datatype Result<T> = Ok(value: T) | Err(error: PageKeyError)

  /** The printed form: the three parts joined with the separator. */
  function ToString(k: PageKey): string
  {
    k.parentId + [Separator] + k.offset + [Separator] + DecimalString(k.blockSize)
  }

  /**
   * The one-argument constructor. The parts it keeps never contain the
   * separator, so whatever it accepts prints back to a string it accepts.
   */
  function Parse(key: string): (r: Result<PageKey>)
    ensures var parts := JavaSplit(key, Separator);
            r.Ok? <==> |parts| == 3 && ParseLong(parts[2]).Some?
    ensures |JavaSplit(key, Separator)| != 3 ==> r == Err(MalformedKey(key))
    ensures r.Ok? ==> Separator !in r.value.parentId && Separator !in r.value.offset
  {
    var parts := JavaSplit(key, Separator);
    if |parts| != 3 then Err(MalformedKey(key))
    else
      match ParseLong(parts[2])
      case None => Err(InvalidBlockSize(parts[2]))
      case Some(n) => Ok(PageKey(parts[0], parts[1], n))
  }

  /** `getOffsetInt`: the offset read as a Java int, or null. */
  function OffsetInt(k: PageKey): Option<int>
  {
    ParseInt(k.offset)
  }

  /** `isValidFormat`, for a possibly-null string. */
  function IsValidFormat(s: Option<string>): bool
  {
    if IsBlank(s) then false
    else
      var parts := JavaSplit(s.value, Separator);
      if |parts| != 3 then false
      else if ParseInt(parts[1]).None? then false
      else if ParseLong(parts[2]).None? then false
      else true
  }

  /** `withParentId`: a blank id is refused; otherwise only the parent changes. */
  function WithParentId(k: PageKey, parentId: Option<string>): (r: Result<PageKey>)
    ensures r.Err? <==> IsBlank(parentId)
    ensures r.Err? ==> r.error == BlankParentId
    ensures r.Ok? ==> r.value.parentId == parentId.value
                      && r.value.offset == k.offset
                      && r.value.blockSize == k.blockSize
  {
    if IsBlank(parentId) then Err(BlankParentId)
    else Ok(PageKey(parentId.value, k.offset, k.blockSize))
  }

  // ---------------------------------------------------------------------------
  // Properties
  // ---------------------------------------------------------------------------

  lemma DecimalStringHasNoSeparator(n: int)
    ensures Separator !in DecimalString(n)
    ensures DecimalString(n) != ""
  {
    var ds := NatDigits(if n < 0 then -n else n);
    assert forall i :: 0 <= i < |ds| ==> IsDigit(ds[i]);
    if n < 0 {
      assert DecimalString(n) == "-" + ds;
      assert forall i :: 0 <= i < |DecimalString(n)| ==> DecimalString(n)[i] == '-' || IsDigit(DecimalString(n)[i]);
    }
  }

  /** The printed form splits into exactly the three fields. */
  lemma SplitToString(k: PageKey)
    requires Separator !in k.parentId && Separator !in k.offset
    ensures JavaSplit(ToString(k), Separator)
            == [k.parentId, k.offset, DecimalString(k.blockSize)]
  {
    var d := DecimalString(k.blockSize);
    DecimalStringHasNoSeparator(k.blockSize);
    var parts := [k.parentId, k.offset, d];
    var s := ToString(k);
    assert Join(parts, Separator) == s by {
      assert Join(parts[2..], Separator) == d;
      assert Join(parts[1..], Separator) == k.offset + [Separator] + d;
    }
    SplitJoin(parts, Separator);
    assert s[|k.parentId|] == Separator;
    assert DropTrailingEmpty(parts) == parts;
  }

  /** Printing then parsing gives the same key back, when no field holds '#'. */
  lemma RoundTrip(k: PageKey)
    requires Separator !in k.parentId && Separator !in k.offset
    ensures Parse(ToString(k)) == Ok(k)
  {
    SplitToString(k);
    ParseDecimalString(k.blockSize, MinLong, MaxLong);
  }

  /** Parsing is a normal form: print-then-parse of a parsed key changes nothing. */
  lemma ParsePrintParse(s: string)
    requires Parse(s).Ok?
    ensures Parse(ToString(Parse(s).value)) == Parse(s)
  {
    RoundTrip(Parse(s).value);
  }

  /** A key with fewer or more than two separators between non-empty fields is refused. */
  lemma WrongPartCountRejected(key: string)
    requires |JavaSplit(key, Separator)| != 3
    ensures Parse(key) == Err(MalformedKey(key))
    ensures !IsValidFormat(Some(key))
  {
  }

  /** A third part that is not a long is refused with the block-size error. */
  lemma BadBlockSizeRejected(p: string, o: string, size: string)
    requires Separator !in p && Separator !in o && Separator !in size
    requires size != "" && ParseLong(size).None?
    ensures Parse(p + [Separator] + o + [Separator] + size) == Err(InvalidBlockSize(size))
  {
    var parts := [p, o, size];
    var s := p + [Separator] + o + [Separator] + size;
    assert Join(parts, Separator) == s by {
      assert Join(parts[2..], Separator) == size;
      assert Join(parts[1..], Separator) == o + [Separator] + size;
    }
    SplitJoin(parts, Separator);
    assert s[|p|] == Separator;
    assert DropTrailingEmpty(parts) == parts;
  }

  /**
   * `isValidFormat(s)` holds exactly when the string constructor accepts `s`
   * and the offset it reads is an int; in particular a valid format always
   * constructs.
   */
  lemma ValidFormatIffParses(s: string)
    ensures IsValidFormat(Some(s)) <==> Parse(s).Ok? && OffsetInt(Parse(s).value).Some?
  {
    var parts := JavaSplit(s, Separator);
    if Parse(s).Ok? {
      assert Separator in s;
      var i :| 0 <= i < |s| && s[i] == Separator;
      assert !IsBlank(Some(s));
    }
  }

  /** A blank string is never a valid format. */
  lemma BlankIsNotValid(s: Option<string>)
    requires IsBlank(s)
    ensures !IsValidFormat(s)
  {
  }

  /** An offset printed from an int reads back as that int. */
  lemma OffsetIntOfNumber(p: string, n: int, b: Long)
    requires MinInt <= n <= MaxInt
    ensures OffsetInt(PageKey(p, DecimalString(n), b)) == Some(n)
  {
    ParseDecimalString(n, MinInt, MaxInt);
  }

  /** A cursor-style offset holding a char that is not a digit or sign reads as null. */
  lemma OffsetIntOfCursor(k: PageKey, i: nat)
    requires i < |k.offset| && !IsDigit(k.offset[i]) && k.offset[i] != '-' && k.offset[i] != '+'
    ensures OffsetInt(k) == None
  {
    ParseRejectsNonNumeric(k.offset, i, MinInt, MaxInt);
  }

  /** Re-parenting then printing and parsing lands on the new parent, same page. */
  lemma WithParentIdRoundTrip(k: PageKey, parentId: string)
    requires !IsBlank(Some(parentId))
    requires Separator !in parentId && Separator !in k.offset
    ensures Parse(ToString(WithParentId(k, Some(parentId)).value))
            == Ok(PageKey(parentId, k.offset, k.blockSize))
  {
    RoundTrip(PageKey(parentId, k.offset, k.blockSize));
  }
}
