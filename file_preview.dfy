/** The file-preview helpers: the icon picked for a MIME type and the size shown for a file. */
module FilePreview {
  import opened Strings

  /** The four Tabler icons `getFileIcon` can return. */
  datatype Icon = IconPhoto | IconFileDescription | IconFileText | IconFile

  /** `getFileIcon`: the first matching test wins. */
  function GetFileIcon(mimeType: string): (icon: Icon)
    ensures StartsWith(mimeType, "image/") ==> icon == IconPhoto
    ensures icon == IconFileDescription <==> mimeType == "application/pdf"
    ensures icon == IconFileText <==> StartsWith(mimeType, "text/")
    ensures icon == IconFile <==>
      !StartsWith(mimeType, "image/") && mimeType != "application/pdf" && !StartsWith(mimeType, "text/")
  {
    PrefixesDisjoint(mimeType);
    if StartsWith(mimeType, "image/") then IconPhoto
    else if mimeType == "application/pdf" then IconFileDescription
    else if StartsWith(mimeType, "text/") then IconFileText
    else IconFile
  }

  /** The three prefix tests exclude one another, so the icon does not depend on their order. */
  lemma PrefixesDisjoint(mimeType: string)
    ensures !(StartsWith(mimeType, "image/") && StartsWith(mimeType, "text/"))
    ensures mimeType == "application/pdf" ==> !StartsWith(mimeType, "image/") && !StartsWith(mimeType, "text/")
  {
    if StartsWith(mimeType, "image/") {
      assert mimeType[..6][0] == 'i';
      assert mimeType[..5][0] == mimeType[0];
    }
    if mimeType == "application/pdf" {
      assert mimeType[0] == 'a';
      assert mimeType[..5][0] == mimeType[0];
      assert mimeType[..6][0] == mimeType[0];
    }
  }

  const Units := ["B", "KB", "MB", "GB"]

  function Pow1024(n: nat): (p: real)
    ensures p >= 1.0
  {
    if n == 0 then 1.0 else 1024.0 * Pow1024(n - 1)
  }

  /** The loop of `formatFileSize`: divide by 1024 while the size is at least 1024 and a larger
      unit is left. The text is `size.toFixed(1)` followed by `Units[unitIndex]`. */
  method FormatFileSize(bytes: real) returns (size: real, unitIndex: nat)
    ensures unitIndex < |Units|
    ensures size == bytes / Pow1024(unitIndex)
    ensures size < 1024.0 || unitIndex == |Units| - 1
    ensures unitIndex > 0 ==> size >= 1.0
    ensures bytes < 1024.0 ==> unitIndex == 0 && size == bytes && Units[unitIndex] == "B"
  {
    size := bytes;
    unitIndex := 0;
    while size >= 1024.0 && unitIndex < |Units| - 1
      invariant unitIndex < |Units|
      invariant size * Pow1024(unitIndex) == bytes
      invariant unitIndex > 0 ==> size >= 1.0
      invariant bytes < 1024.0 ==> unitIndex == 0
      decreases |Units| - unitIndex
    {
      ScaleStep(size, unitIndex);
      size := size / 1024.0;
      unitIndex := unitIndex + 1;
    }
    assert size == bytes / Pow1024(unitIndex) by {
      assert size * Pow1024(unitIndex) / Pow1024(unitIndex) == size;
    }
  }

  lemma ScaleStep(size: real, unitIndex: nat)
    ensures (size / 1024.0) * Pow1024(unitIndex + 1) == size * Pow1024(unitIndex)
  {
    assert Pow1024(unitIndex + 1) == 1024.0 * Pow1024(unitIndex);
  }

  /** The unit is the largest one the size reaches, stopping at gigabytes. */
  lemma UnitThresholds(bytes: real, size: real, unitIndex: nat)
    requires unitIndex < |Units| && size == bytes / Pow1024(unitIndex)
    requires size < 1024.0 || unitIndex == |Units| - 1
    requires unitIndex > 0 ==> size >= 1.0
    ensures unitIndex > 0 ==> bytes >= Pow1024(unitIndex)
    ensures unitIndex < |Units| - 1 ==> bytes < Pow1024(unitIndex + 1)
  {
    var p := Pow1024(unitIndex);
    assert bytes == size * p;
    assert Pow1024(unitIndex + 1) == 1024.0 * p;
  }
}
