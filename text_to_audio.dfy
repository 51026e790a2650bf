/**
 * The file-name handling of the text-to-speech handler (text-to-audio
 * lambda_function.py): where the generated `.mp3` is uploaded for an uploaded
 * text object. Reading the text, speech synthesis, the upload itself and the
 * notification are not modelled.
 */
module TextToAudio {
  import opened PyStr

  /** `output_folder`, given a trailing `/` when it lacks one. */
  function NormalizeFolder(folder: string): (r: string)
    ensures EndsWith(r, "/")
    ensures EndsWith(folder, "/") ==> r == folder
    ensures !EndsWith(folder, "/") ==> r == folder + "/"
  {
    if EndsWith(folder, "/") then folder else folder + "/"
  }

  lemma NormalizeFolderIdempotent(folder: string)
    ensures NormalizeFolder(NormalizeFolder(folder)) == NormalizeFolder(folder)
  {
    assert EndsWith(NormalizeFolder(folder), "/");
  }

  /** The object key's last `/`-segment, lower-cased, spaces to `_`, brackets and `.txt` removed. */
  function FileStem(key: string): (r: string)
    ensures |r| <= |LastSegment(key)|
  {
    var name := Lower(LastSegment(key));
    ReplaceAll(ReplaceAll(ReplaceAll(ReplaceAll(name, " ", "_"), "(", ""), ")", ""), ".txt", "")
  }

  /** `file_out`: the stem with `.mp3` appended. */
  function FileOut(key: string): (r: string)
    ensures EndsWith(r, ".mp3") && r[..|r| - 4] == FileStem(key)
  {
    FileStem(key) + ".mp3"
  }

  /** The key the audio file is uploaded under. */
  function UploadKey(folder: string, key: string): (r: string)
    ensures StartsWith(r, NormalizeFolder(folder)) && r[|NormalizeFolder(folder)|..] == FileOut(key)
  {
    NormalizeFolder(folder) + FileOut(key)
  }

  /** Lower-casing neither adds nor removes a character that is not a letter. */
  lemma LowerKeepsNonLetter(s: string, c: char)
    requires !('A' <= c <= 'Z') && !('a' <= c <= 'z')
    ensures c in Lower(s) <==> c in s
  {
    if c in Lower(s) {
      var k :| 0 <= k < |s| && Lower(s)[k] == c;
    }
    if c in s {
      var k :| 0 <= k < |s| && s[k] == c;
      assert Lower(s)[k] == c;
    }
  }

  /** Replacing single character `c` by single character `d` rewrites the string position by position. */
  lemma {:induction false} ReplaceCharPointwise(s: string, c: char, d: char)
    ensures ReplaceAll(s, [c], [d]) == seq(|s|, k requires 0 <= k < |s| => if s[k] == c then d else s[k])
    decreases |s|
  {
    if |s| > 0 {
      ReplaceCharPointwise(s[1..], c, d);
    }
  }

  /** The stem is a plain file name: no directory separator, no space, no bracket. */
  lemma {:induction false} FileStemIsPlain(key: string)
    ensures '/' !in FileStem(key) && ' ' !in FileStem(key) && '(' !in FileStem(key) && ')' !in FileStem(key)
  {
    var name := Lower(LastSegment(key));
    var s1 := ReplaceAll(name, " ", "_");
    var s2 := ReplaceAll(s1, "(", "");
    var s3 := ReplaceAll(s2, ")", "");
    var s4 := ReplaceAll(s3, ".txt", "");
    LowerKeepsNonLetter(LastSegment(key), '/');
    ReplaceAllRemovesChar(name, ' ', "_");
    ReplaceAllRemovesChar(s1, '(', "");
    ReplaceAllRemovesChar(s2, ')', "");
    forall c | c in s4 ensures c in s3 {
      ReplaceAllChars(s3, ".txt", "", c);
    }
    forall c | c in s3 ensures c in s2 {
      ReplaceAllChars(s2, ")", "", c);
    }
    forall c | c in s2 ensures c in s1 {
      ReplaceAllChars(s1, "(", "", c);
    }
    forall c | c in s1 ensures c in name || c == '_' {
      ReplaceAllChars(name, " ", "_", c);
    }
  }

  /** The audio file's name is a plain `.mp3` file name. */
  lemma FileOutIsPlain(key: string)
    ensures '/' !in FileOut(key) && ' ' !in FileOut(key) && '(' !in FileOut(key) && ')' !in FileOut(key)
  {
    FileStemIsPlain(key);
    PlainWithExtension(FileStem(key));
  }

  /** Appending `.mp3` adds none of the excluded characters. Stated on a symbolic stem so that
      `FileOutIsPlain` does not unfold the replacement chain a second time. */
  lemma PlainWithExtension(stem: string)
    requires '/' !in stem && ' ' !in stem && '(' !in stem && ')' !in stem
    ensures var r := stem + ".mp3"; '/' !in r && ' ' !in r && '(' !in r && ')' !in r
  {
  }

  /** The uploaded object sits directly in the output folder, under the audio file's name. */
  lemma UploadKeyInFolder(folder: string, key: string)
    ensures EndsWith(UploadKey(folder, key), ".mp3")
    ensures '/' !in UploadKey(folder, key)[|NormalizeFolder(folder)|..]
  {
    FileOutIsPlain(key);
  }

  /** The `.txt` removal is one left-to-right pass, so removing one occurrence can join the
      surrounding text into a new `.txt`: `.t.txtxt` keeps a `.txt` in its file name. */
  lemma TxtCanSurvive()
    ensures FileOut(".t.txtxt") == ".txt.mp3"
  {
    TxtSurvivesInStem();
    FileOutIsStemWithExtension(".t.txtxt");
  }

  /** `FileOut` unfolded once, for a concrete key: lets `TxtCanSurvive` reuse the stem computed
      by `TxtSurvivesInStem` instead of evaluating the replacement chain again. */
  lemma FileOutIsStemWithExtension(key: string)
    ensures FileOut(key) == FileStem(key) + ".mp3"
  {
  }

  lemma TxtSurvivesInStem()
    ensures FileStem(".t.txtxt") == ".txt"
  {
    StemOfPlainName(".t.txtxt");
    TxtPassOnExample();
  }

  /** For a lower-case key without directory, space or bracket, only the `.txt` pass does anything. */
  lemma StemOfPlainName(key: string)
    requires '/' !in key && ' ' !in key && '(' !in key && ')' !in key
    requires forall k :: 0 <= k < |key| ==> !('A' <= key[k] <= 'Z')
    ensures FileStem(key) == ReplaceAll(key, ".txt", "")
  {
    LastSegmentOfPlain(key);
    LowerOfNoCapitals(key);
    ReplaceAllAbsentChar(key, ' ', "_");
    ReplaceAllAbsentChar(key, '(', "");
    ReplaceAllAbsentChar(key, ')', "");
  }

  lemma TxtPassOnExample()
    ensures ReplaceAll(".t.txtxt", ".txt", "") == ".txt"
  {
    assert ReplaceAll("xt", ".txt", "") == "xt";
    assert ReplaceAll(".txtxt", ".txt", "") == "xt";
    assert ReplaceAll("t.txtxt", ".txt", "") == "txt";
  }
}
