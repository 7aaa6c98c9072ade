/** The upload-path conventions the admin views share: uploaded files are served under
    `/upload/<subfolder>/`. */
module UploadPaths {
  import opened Js

  const UPLOAD_PREFIX: string := "/upload/"

  /** `s.replace(/^\/+/, '')` */
  function StripLeadingSlashes(s: string): (r: string)
    ensures |r| <= |s| && r == s[|s| - |r|..]
    ensures r == [] || r[0] != '/'
    ensures forall i :: 0 <= i < |s| - |r| ==> s[i] == '/'
  {
    if s != [] && s[0] == '/' then StripLeadingSlashes(s[1..]) else s
  }

  /** A path built under the subfolder starts with the upload prefix. */
  lemma UnderPrefix(subfolder: string, w: string)
    ensures StartsWith(UPLOAD_PREFIX + subfolder + "/" + w, UPLOAD_PREFIX)
  {
    assert (UPLOAD_PREFIX + subfolder + "/" + w)[..8] == UPLOAD_PREFIX;
  }

  /** The path built under the subfolder starts with the upload prefix and, like `w`,
      does not end in white space. */
  lemma UnderSubfolder(subfolder: string, w: string)
    requires w == [] || !IsWhite(w[|w| - 1])
    ensures StartsWith(UPLOAD_PREFIX + subfolder + "/" + w, UPLOAD_PREFIX)
    ensures Trimmed(UPLOAD_PREFIX + subfolder + "/" + w)
  {
    var r := UPLOAD_PREFIX + subfolder + "/" + w;
    assert r[..8] == UPLOAD_PREFIX;
    assert r[0] == '/';
    if w != [] {
      assert r[|r| - 1] == w[|w| - 1];
    } else {
      assert r[|r| - 1] == '/';
    }
  }
}
