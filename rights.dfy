/** The rights table read from the side file `access_rights.txt`
    (the line loop of `Virtual_System.load_access_rights`): each line that
    splits on whitespace into exactly two words `name rights` sets the
    rights of `name`, a later line overriding an earlier one. */
module Rights {
  import opened Options
  import opened Text

  type Table = map<string, string>

  /** The pair a line contributes, when it holds exactly two words. */
  function Entry(line: string): Option<(string, string)>
  {
    var words := Fields(line);
    if |words| == 2 then Some((words[0], words[1])) else None
  }

  predicate SetsRightsOf(line: string, name: string)
  {
    Entry(line).Some? && Entry(line).value.0 == name
  }

  /** The table after reading `lines` in order. */
  function RightsTable(lines: seq<string>): Table
  {
    if lines == [] then map[]
    else
      var t := RightsTable(lines[..|lines| - 1]);
      match Entry(lines[|lines| - 1])
      case None => t
      case Some((name, rights)) => t[name := rights]
  }

  /** A name is in the table exactly when some line sets its rights. */
  lemma {:induction false} RightsTableHasName(lines: seq<string>, name: string)
    ensures name in RightsTable(lines) <==> exists i :: 0 <= i < |lines| && SetsRightsOf(lines[i], name)
  {
    if lines != [] {
      var n := |lines| - 1;
      var init := lines[..n];
      RightsTableHasName(init, name);
      if SetsRightsOf(lines[n], name) {
        assert name in RightsTable(lines);
      } else {
        assert (name in RightsTable(lines)) == (name in RightsTable(init));
        if name in RightsTable(init) {
          var i :| 0 <= i < |init| && SetsRightsOf(init[i], name);
          assert lines[i] == init[i];
        } else {
          forall i | 0 <= i < |lines| ensures !SetsRightsOf(lines[i], name) {
            if i < n {
              assert lines[i] == init[i];
            }
          }
        }
      }
    }
  }

  /** The rights recorded for a name are those of the last line that sets them. */
  lemma {:induction false} RightsTableLastWins(lines: seq<string>, name: string)
    requires name in RightsTable(lines)
    ensures exists i ::
              && 0 <= i < |lines|
              && Entry(lines[i]) == Some((name, RightsTable(lines)[name]))
              && (forall j :: i < j < |lines| ==> !SetsRightsOf(lines[j], name))
  {
    var n := |lines| - 1;
    var init := lines[..n];
    var r := RightsTable(lines)[name];
    if SetsRightsOf(lines[n], name) {
      assert Entry(lines[n]) == Some((name, r));
    } else {
      assert name in RightsTable(init) && RightsTable(init)[name] == r;
      RightsTableLastWins(init, name);
      var i :| 0 <= i < |init| && Entry(init[i]) == Some((name, r)) &&
        (forall j :: i < j < |init| ==> !SetsRightsOf(init[j], name));
      assert lines[i] == init[i];
      forall j | i < j < |lines| ensures !SetsRightsOf(lines[j], name) {
        if j < n {
          assert lines[j] == init[j];
        }
      }
    }
  }

  /** A line of two words separated by one space. */
  lemma EntryOfTwoWords(name: string, rights: string)
    requires IsWord(name) && IsWord(rights)
    ensures Entry(name + " " + rights) == Some((name, rights))
  {
    FieldsOfUnwords([name, rights]);
    assert Unwords([name, rights]) == name + " " + rights;
  }

  lemma TwoLines(l1: string, l2: string)
    requires Entry(l1).Some? && Entry(l2).Some?
    ensures RightsTable([l1, l2]) == map[Entry(l1).value.0 := Entry(l1).value.1][Entry(l2).value.0 := Entry(l2).value.1]
  {
    assert [l1, l2][..1] == [l1];
    assert [l1][..0] == [];
    var (n1, r1) := Entry(l1).value;
    assert RightsTable([l1]) == map[n1 := r1];
  }

  lemma EntryTest()
    ensures Entry("test.txt r") == Some(("test.txt", "r"))
  {
    assert IsWord("test.txt") && IsWord("r");
    EntryOfTwoWords("test.txt", "r");
    assert "test.txt" + " " + "r" == "test.txt r";
  }

  lemma EntrySubdir()
    ensures Entry("subdir rw") == Some(("subdir", "rw"))
  {
    assert IsWord("subdir") && IsWord("rw");
    EntryOfTwoWords("subdir", "rw");
    assert "subdir" + " " + "rw" == "subdir rw";
  }

  lemma TestRightsTable()
    ensures RightsTable(["test.txt r", "subdir rw"]) == map["test.txt" := "r", "subdir" := "rw"]
  {
    EntryTest();
    EntrySubdir();
    TwoLines("test.txt r", "subdir rw");
  }
}
