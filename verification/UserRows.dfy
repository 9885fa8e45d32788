/**
 Rows of hpe_users and their cached form: cache_user writes every datetime as an ISO string, and
 _restore_user_datetimes turns two named columns back.
 */
module UserRows {
  import opened Options
  import opened IsoTimes

  datatype Column = Id | Username | PasswordHash | Department | LastLogin | LastLoginRegion | LastLoginIp
                  | FailedAttempts | LastFailedAttempt | Status

  datatype Value = Null | Str(text: string) | Num(number: int) | Time(time: DateTime)

  type Row = map<Column, Value>

  const TIMES := {LastLogin, LastFailedAttempt}

  /** The column types of hpe_users. */
  predicate HasType(c: Column, v: Value) {
    match c
    case Id | FailedAttempts => v.Num?
    case Username | Status => v.Str?
    case LastLogin | LastFailedAttempt => v.Null? || (v.Time? && IsDateTime(v.time))
    case PasswordHash | Department | LastLoginRegion | LastLoginIp => v.Null? || v.Str?
  }

  predicate WellTyped(row: Row) {
    forall c: Column :: c in row && HasType(c, row[c])
  }

  function SerialisedValue(v: Value): Value {
    if v.Time? then Str(IsoFormat(v.time)) else v
  }

  function Serialised(row: Row): Row {
    map c | c in row :: SerialisedValue(row[c])
  }

  // A string that is no datetime becomes None.
  function RestoredValue(v: Value): Value {
    if v.Str? then
      match FromIsoFormat(v.text)
      case Some(t) => Time(t)
      case None => Null
    else v
  }

  function Restored(row: Row): Row {
    map c | c in row :: if c in TIMES then RestoredValue(row[c]) else row[c]
  }

  /** A row survives the cache unchanged if and only if datetimes stand only in the two named columns,
      and no strings do. */
  lemma CacheRoundTripExactly(row: Row)
    requires forall c <- row :: row[c].Time? ==> IsDateTime(row[c].time)
    ensures Restored(Serialised(row)) == row
            <==> forall c <- row :: if c in TIMES then !row[c].Str? else !row[c].Time?
  {
    var back := Restored(Serialised(row));
    forall c | c in row ensures back[c] == row[c] <==> if c in TIMES then !row[c].Str? else !row[c].Time? {
      if row[c].Time? {
        FromIsoInvertsIso(row[c].time);
      }
    }
    assert back.Keys == row.Keys;
  }

  lemma TypesFitTheCache(c: Column, v: Value)
    requires HasType(c, v)
    ensures v.Time? ==> IsDateTime(v.time)
    ensures if c in TIMES then !v.Str? else !v.Time?
  {
  }

  lemma RowsSurviveTheCache(row: Row)
    requires WellTyped(row)
    ensures Restored(Serialised(row)) == row
  {
    forall c | c in row
      ensures row[c].Time? ==> IsDateTime(row[c].time)
      ensures if c in TIMES then !row[c].Str? else !row[c].Time?
    {
      TypesFitTheCache(c, row[c]);
    }
    CacheRoundTripExactly(row);
  }
}
