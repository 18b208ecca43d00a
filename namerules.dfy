/**
  The file-name rules of the main window (app/src/mainwindow.cpp): the name a
  database received from the server is stored under, the label shown while
  it is previewed, and the path a "save as" copies to. Each ".db" test is
  QString::endsWith(".db", Qt::CaseInsensitive).
 */
module NameRules {
  const DbSuffix: string := ".db"
  /** The name used when the server sends a database without a name. */
  const DefaultReceivedName: string := "tempOrg.db"

  /** `s` ends with ".db" in any mix of letter case. */
  predicate EndsWithDb(s: string)
  {
    |s| >= 3 && s[|s| - 3] == '.' && s[|s| - 2] in "dD" && s[|s| - 1] in "bB"
  }

  /** QString::chopped: `s` without its last `n` characters. */
  function Chopped(s: string, n: nat): (r: string)
    requires n <= |s|
    ensures |r| == |s| - n && r == s[..|r|]
  {
    s[..|s| - n]
  }

  /** The name activatePreviewMode gives a received database: "tempOrg.db"
      for an empty name, otherwise the name with ".db" appended unless it
      already ends with it. */
  function NormalizeReceivedName(name: string): (r: string)
    ensures EndsWithDb(r)
    ensures name != [] ==> |name| <= |r| <= |name| + 3 && r[..|name|] == name
    ensures name == [] ==> r == DefaultReceivedName
  {
    var n := if name == [] then DefaultReceivedName else name;
    if EndsWithDb(n) then n else n + DbSuffix
  }

  /** Normalising a name a second time changes nothing. */
  lemma {:induction false} NormalizeIdempotent(name: string)
    ensures NormalizeReceivedName(NormalizeReceivedName(name)) == NormalizeReceivedName(name)
  {
  }

  /** A name that already ends with ".db", in any case, is kept as it is. */
  lemma {:induction false} NormalizeKeepsDbNames(name: string)
    requires EndsWithDb(name)
    ensures NormalizeReceivedName(name) == name
  {
  }

  /** The organisation name shown in the label while the received database
      is previewed: the normalised name without its last three characters. */
  function PreviewLabel(name: string): (r: string)
  {
    Chopped(NormalizeReceivedName(name), 3)
  }

  /** The label gives back the name the server sent when that name was not
      empty and did not end with ".db"; a name that did gives it without its
      extension; an empty name gives "tempOrg". */
  lemma {:induction false} PreviewLabelOfName(name: string)
    ensures name != [] && !EndsWithDb(name) ==> PreviewLabel(name) == name
    ensures EndsWithDb(name) ==> PreviewLabel(name) == name[..|name| - 3]
    ensures name == [] ==> PreviewLabel(name) == "tempOrg"
  {
    if name == [] {
      assert DefaultReceivedName[..7] == "tempOrg";
    } else if !EndsWithDb(name) {
      assert (name + DbSuffix)[..|name|] == name;
    }
  }

  /** The path "save as" copies the database to: ".db" appended unless the
      chosen path already ends with it. There is no default for an empty
      path, which becomes ".db". */
  function SaveAsName(path: string): (r: string)
    ensures EndsWithDb(r)
    ensures |path| <= |r| <= |path| + 3 && r[..|path|] == path
    ensures path == [] ==> r == ".db"
    ensures EndsWithDb(path) <==> r == path
  {
    if EndsWithDb(path) then path else path + DbSuffix
  }

  lemma {:induction false} SaveAsNameIdempotent(path: string)
    ensures SaveAsName(SaveAsName(path)) == SaveAsName(path)
  {
  }
}
