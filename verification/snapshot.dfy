/**
  Snapshot file names `motion_<YYYYMMDD>_<HHMMSS>.jpg` (app.py), built from an
  explicit clock reading, and where a snapshot is stored and published.
 */
module Snapshot {
  import opened Wrappers
  import opened DateFormat
  import Upload

  /** `UPLOAD_FOLDER`: the directory snapshots are written to. */
  const UploadFolder := "static/captures"

  /** The placeholder public address the SMS alert links to. */
  const PublicFolderUrl := "http://yourdomain.com/static/captures/"

  /** The three parts of a concatenation can be sliced back out of it. */
  lemma PartsOfConcat<T>(a: seq<T>, b: seq<T>, c: seq<T>)
    ensures (a + b + c)[..|a|] == a
    ensures (a + b + c)[|a|..|a| + |b|] == b
    ensures (a + b + c)[|a| + |b|..] == c
  {
    var s := a + b + c;
    assert forall k :: 0 <= k < |a| ==> s[k] == a[k];
    assert forall k :: 0 <= k < |b| ==> s[|a| + k] == b[k];
    assert forall k :: 0 <= k < |c| ==> s[|a| + |b| + k] == c[k];
  }

  /** `f"motion_{now.strftime('%Y%m%d_%H%M%S')}.jpg"`. */
  function SnapshotName(dt: DateTime): (name: string)
    requires Valid(dt)
    ensures |name| == 26
  {
    "motion_" + CompactStamp(dt) + ".jpg"
  }

  /** The layout of a snapshot name: fixed prefix, the compact stamp, the `.jpg` extension. */
  lemma SnapshotNameShape(dt: DateTime)
    requires Valid(dt)
    ensures var name := SnapshotName(dt);
      && name[..7] == "motion_"
      && name[7..22] == CompactStamp(dt)
      && name[15] == '_'
      && name[22..] == ".jpg"
  {
    PartsOfConcat("motion_", CompactStamp(dt), ".jpg");
    CompactStampFields(dt);
    assert SnapshotName(dt)[15] == SnapshotName(dt)[7..22][8];
  }

  /** Every snapshot name passes the upload check: its extension is `jpg`. */
  lemma SnapshotNameAllowed(dt: DateTime)
    requires Valid(dt)
    ensures Upload.AllowedFile(SnapshotName(dt))
  {
    var name := SnapshotName(dt);
    SnapshotNameShape(dt);
    assert name[22] == '.';
    assert name[23..] == "jpg";
    Upload.LastDotIsUnique(name, 22);
    assert Upload.Lower("jpg") == "jpg";
  }

  /** `os.path.join(UPLOAD_FOLDER, filename)` with the POSIX separator. */
  function SnapshotPath(name: string): string {
    UploadFolder + "/" + name
  }

  /** The URL handed to the SMS alert for a snapshot. */
  function SnapshotUrl(name: string): string {
    PublicFolderUrl + name
  }

  /** Reads a snapshot file name back into the date and time it was taken; `None` for any other name. */
  function ParseSnapshotName(name: string): (r: Option<DateTime>)
    ensures r.Some? ==> Valid(r.value)
  {
    if && |name| == 26 && name[..7] == "motion_" && name[15] == '_' && name[22..] == ".jpg"
       && AllDigits(name[7..11]) && AllDigits(name[11..13]) && AllDigits(name[13..15])
       && AllDigits(name[16..18]) && AllDigits(name[18..20]) && AllDigits(name[20..22])
    then
      var dt := DateTime(Value(name[7..11]), Value(name[11..13]), Value(name[13..15]),
                         Value(name[16..18]), Value(name[18..20]), Value(name[20..22]));
      if Valid(dt) then Some(dt) else None
    else None
  }

  /** A snapshot name determines the clock reading it was built from. */
  lemma SnapshotNameRoundTrip(dt: DateTime)
    requires Valid(dt)
    ensures ParseSnapshotName(SnapshotName(dt)) == Some(dt)
  {
    var name := SnapshotName(dt);
    var stamp := CompactStamp(dt);
    SnapshotNameShape(dt);
    CompactStampFields(dt);
    assert name[7..11] == stamp[0..4] && name[11..13] == stamp[4..6] && name[13..15] == stamp[6..8];
    assert name[16..18] == stamp[9..11] && name[18..20] == stamp[11..13] && name[20..22] == stamp[13..15];
  }

  /** A string is its three consecutive slices put back together. */
  lemma Rejoin<T>(s: seq<T>, i: int, j: int)
    requires 0 <= i <= j <= |s|
    ensures s == s[..i] + s[i..j] + s[j..]
  {
  }

  /** Every name the parser accepts is exactly the name built from what it parsed. */
  lemma ParsedNameIsCanonical(name: string)
    requires ParseSnapshotName(name).Some?
    ensures SnapshotName(ParseSnapshotName(name).value) == name
  {
    var dt := ParseSnapshotName(name).value;
    PaddedValue(name[7..11]);
    PaddedValue(name[11..13]);
    PaddedValue(name[13..15]);
    PaddedValue(name[16..18]);
    PaddedValue(name[18..20]);
    PaddedValue(name[20..22]);
    var date := name[7..15];
    var time := name[16..22];
    Rejoin(date, 4, 6);
    Rejoin(time, 2, 4);
    assert date == name[7..11] + name[11..13] + name[13..15];
    assert time == name[16..18] + name[18..20] + name[20..22];
    assert Fields(dt.year, 4, dt.month, dt.day, "") == date;
    assert Fields(dt.hour, 2, dt.minute, dt.second, "") == time;
    assert CompactStamp(dt) == date + "_" + time;
    Rejoin(name, 7, 22);
    Rejoin(name[7..22], 8, 9);
    assert name[7..22] == date + "_" + time;
  }

  /** Two clock readings give the same snapshot name only when they agree to the second. */
  lemma SnapshotNameInjective(a: DateTime, b: DateTime)
    requires Valid(a) && Valid(b)
    ensures SnapshotName(a) == SnapshotName(b) <==> a == b
  {
    SnapshotNameRoundTrip(a);
    SnapshotNameRoundTrip(b);
  }
}
