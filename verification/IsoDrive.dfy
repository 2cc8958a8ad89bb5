/** The whole path of a drive: written from files in any order, opened, and read by name. */
module IsoDrive {
  import opened Bytes
  import opened IsoLayout
  import opened IsoReader
  import opened IsoRecords
  import opened IsoRoundTrip
  import opened IsoTheorems
  import opened IsoWriter

  /** What Write needs of its callers for the drive to read back: it checks all of this but the last line. */
  ghost predicate Drivable(files: seq<File>) {
    && 0 < |files| <= MAX_FILES && AllAcceptable(files)
    && Distinct(files) && AllFit(files) && forall i :: 0 <= i < |files| ==> |files[i].data| <= MAX_FILE_SIZE
  }

  lemma SortedDrivable(files: seq<File>)
    requires Drivable(files)
    ensures Drivable(SortByName(files)) && forall f :: f in SortByName(files) <==> f in files
  {
    var sorted := SortByName(files);
    forall f ensures f in sorted <==> f in files {
      assert f in multiset(sorted) <==> f in multiset(files);
    }
    forall i | 0 <= i < |sorted|
      ensures Acceptable(sorted[i].name) && |sorted[i].name| <= MAX_NAME && |sorted[i].data| <= MAX_FILE_SIZE
    {
      assert sorted[i] in files;
    }
    SortSorts(files);
    forall i, j | 0 <= i < j < |sorted| ensures sorted[i].name != sorted[j].name {
      LessIsStrict(sorted[i].name);
    }
  }

  lemma {:induction false} AcceptableIsChecked(files: seq<File>)
    requires AllAcceptable(files)
    ensures FirstBadName(files) == None
  {
    if files != [] {
      assert Acceptable(files[0].name);
      AcceptableIsChecked(files[1..]);
    }
  }

  /** Every file on the drive reads back as it was passed to Write; every other name is absent. */
  lemma {:induction false} DriveReadsBack(volume: text, files: seq<File>)
    requires Drivable(files)
    ensures Written(volume, files).Ok? && Open(Written(volume, files).value).Ok?
    ensures var r := Open(Written(volume, files).value).value;
      && (forall f :: f in files ==> Contents(r, f.name) == Ok(f.data))
      && (forall name :: OneComponent(name) && (forall f :: f in files ==> f.name != name) ==>
            Contents(r, name) == Err(NotExist))
  {
    hide Contents, ImageOf, Open, ReaderOf, SortByName, FirstBadName, Acceptable, Distinct, OneComponent, Addressable;
    var sorted := SortByName(files);
    SortedDrivable(files);
    AcceptableIsChecked(sorted);
    ModestFilesAreAddressable(sorted);
    ReadsBackWhatWasWritten(volume, sorted, 0);
    var r := ReaderOf(volume, sorted);
    forall f | f in files ensures Contents(r, f.name) == Ok(f.data) {
      var i :| 0 <= i < |sorted| && sorted[i] == f;
      ReadsBackWhatWasWritten(volume, sorted, i);
    }
    forall name | OneComponent(name) && (forall f :: f in files ==> f.name != name)
      ensures Contents(r, name) == Err(NotExist)
    {
      OtherNamesDoNotExist(volume, sorted, name);
    }
  }
}
