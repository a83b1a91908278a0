/** The files of an input folder, as the scripts list them, and the suffix filter they apply. */
module Folder {
  import opened PyStr

  /** A file of the input folder: its name and its lines, each with its line terminator. */
  datatype InputFile = InputFile(name: String, lines: seq<String>)

  /** The files whose name ends with `suffix`, in listing order. */
  function Selected(files: seq<InputFile>, suffix: String): (r: seq<InputFile>)
    ensures |r| <= |files|
    ensures forall i :: 0 <= i < |r| ==> EndsWith(r[i].name, suffix)
    decreases |files|
  {
    if files == [] then []
    else
      var last := files[|files| - 1];
      Selected(files[..|files| - 1], suffix) + (if EndsWith(last.name, suffix) then [last] else [])
  }

  /** A file is read exactly when its name ends with the suffix. */
  lemma {:induction false} SelectedIff(files: seq<InputFile>, suffix: String, f: InputFile)
    ensures f in Selected(files, suffix) <==> f in files && EndsWith(f.name, suffix)
    decreases |files|
  {
    if files != [] {
      var init := files[..|files| - 1];
      SelectedIff(init, suffix, f);
      assert files == init + [files[|files| - 1]];
    }
  }
}
