/** The size of `kExt` (src/ImagePixelViewer.h). */
module Extensions {
  import opened Viewer

  /** The entries of `kExt`, in the order they are written. */
  const ExtensionTable: seq<string> := [
    ".bmp", ".dib",
    ".jpg", ".jpeg", ".jpe", ".jfif",
    ".jp2", ".j2k", ".jpf", ".jpx", ".j2c",
    ".png",
    ".pbm", ".pgm", ".ppm", ".pnm",
    ".tif", ".tiff",
    ".sr", ".ras",
    ".webp",
    ".hdr", ".pic",
    ".exr"
  ]

  /** `kExt` holds 24 different extensions. */
  lemma ImageExtensionsCount()
    ensures |ImageExtensions| == |ExtensionTable| == 24
  {
    TableDistinct();
    TableListsImageExtensions();
    ImageExtensionsInTable();
    DistinctCount(ExtensionTable, ImageExtensions);
  }

  lemma TableDistinct()
    ensures Distinct(ExtensionTable)
  {
  }

  lemma TableListsImageExtensions()
    ensures forall i :: 0 <= i < |ExtensionTable| ==> ExtensionTable[i] in ImageExtensions
  {
  }

  lemma ImageExtensionsInTable()
    ensures forall e :: e in ImageExtensions ==> e in ExtensionTable
  {
  }

  predicate Distinct<T(==)>(s: seq<T>) {
    forall i, j :: 0 <= i < j < |s| ==> s[i] != s[j]
  }

  /** The entries of a sequence without repetitions, gathered in a set,
      number as many as the sequence is long. */
  lemma {:induction false} DistinctCount<T>(s: seq<T>, elements: set<T>)
    requires Distinct(s)
    requires forall e :: e in elements <==> e in s
    ensures |elements| == |s|
  {
    if s != [] {
      var last := s[|s| - 1];
      var front := s[..|s| - 1];
      var rest := elements - {last};
      forall e ensures e in rest <==> e in front {
        if e in front {
          var k :| 0 <= k < |front| && front[k] == e;
          assert s[k] == e && k < |s| - 1;
        }
        if e in s && e != last {
          var k :| 0 <= k < |s| && s[k] == e;
          assert k != |s| - 1;
          assert front[k] == e;
        }
      }
      assert Distinct(front);
      DistinctCount(front, rest);
      assert last in elements;
    }
  }
}
