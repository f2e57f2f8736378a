/**
 The two passes agree: sizes, label addresses and emission positions.
 */
module AssemblerLaws {
  import opened Common
  import opened Isa
  import opened Ir
  import opened Codec
  import opened Assembler

  /** The first node that defines the name. */
  function LabelIndex(ir: seq<Node>, name: string, i: nat := 0): (j: Option<nat>)
    requires i <= |ir|
    ensures j.Some? ==> i <= j.value < |ir| && ir[j.value] == Label(name)
    decreases |ir| - i
  {
    if i == |ir| then None
    else if ir[i].Label? && ir[i].name == name then Some(i)
    else LabelIndex(ir, name, i + 1)
  }

  lemma {:induction false} LabelIndexIs(ir: seq<Node>, name: string, i: nat)
    requires i <= |ir|
    ensures var j := LabelIndex(ir, name, i);
            if j.Some? then i <= j.value < |ir| && ir[j.value] == Label(name)
                            && forall k :: i <= k < j.value ==> ir[k] != Label(name)
            else forall k :: i <= k < |ir| ==> ir[k] != Label(name)
    decreases |ir| - i
  {
    if i < |ir| { LabelIndexIs(ir, name, i + 1); }
  }

  lemma {:induction false} LookUpAppend(t: seq<Symbol>, u: seq<Symbol>, name: string, i: nat)
    requires i <= |t|
    ensures LookUp(t + u, name, i) == if LookUp(t, name, i).Some? then LookUp(t, name, i) else LookUp(t + u, name, |t|)
    decreases |t| - i
  {
    if i < |t| { LookUpAppend(t, u, name, i + 1); }
  }

  lemma {:induction false} LookUpTable(ir: seq<Node>, n: nat, name: string)
    requires n <= |ir|
    ensures var found := LookUp(Symbols(ir, n), name);
            var j := LabelIndex(ir, name, 0);
            if j.Some? && j.value < n then found == Some(AddressAt(ir, j.value)) else found == None
    decreases n
  {
    LabelIndexIs(ir, name, 0);
    if n > 0 {
      LookUpTable(ir, n - 1, name);
      var before := Symbols(ir, n - 1);
      var extra := if ir[n - 1].Label? then [Symbol(ir[n - 1].name, AddressAt(ir, n - 1))] else [];
      LookUpAppend(before, extra, name, 0);
      if ir[n - 1] == Label(name) {
        assert (before + extra)[|before|] == Symbol(name, AddressAt(ir, n - 1));
      } else if extra != [] {
        assert LookUp(before + extra, name, |before| + 1) == None;
      }
    }
  }

  /**
   The table the first pass leaves behind finds exactly the names that are defined somewhere in
   the list, at the address of their first definition.
   */
  lemma TableIsComplete(ir: seq<Node>, name: string)
    ensures var found := LookUp(Symbols(ir, |ir|), name);
            var j := LabelIndex(ir, name);
            found == if j.Some? then Some(AddressAt(ir, j.value)) else None
  {
    LabelIndexIs(ir, name, 0);
    LookUpTable(ir, |ir|, name);
  }

  /** In an accepted list a label stands for its own position: its definition is the only one. */
  lemma LabelsAreUnique(ir: seq<Node>, j: nat)
    requires Accepted(ir) && j < |ir| && ir[j].Label?
    ensures LabelIndex(ir, ir[j].name) == Some(j) && SectionAt(ir, j) != SECTION_UNDEF
  {
    LabelIndexIs(ir, ir[j].name, 0);
    var k := LabelIndex(ir, ir[j].name).value;
    assert FirstPassError(ir, j) == Returned(ASM_OK);
    assert !LabelBefore(ir, j, ir[j].name);
  }

  /** A node that is emitted into the given section. */
  predicate IsItem(n: Node, section: Section) {
    if section == SECTION_DATA then n.Dir? && n.dir in {BYTE, WORD, ADDR, STRING} else n.Instr?
  }

  /** The first item of a section at or after node i, or |ir|. */
  function NextItem(ir: seq<Node>, section: Section, i: nat): (k: nat)
    requires i <= |ir|
    ensures i <= k <= |ir| && (k < |ir| ==> IsItem(ir[k], section))
    ensures forall m :: i <= m < k ==> !IsItem(ir[m], section)
    decreases |ir| - i
  {
    if i == |ir| || IsItem(ir[i], section) then i else NextItem(ir, section, i + 1)
  }

  lemma {:induction false} NothingBeforeNextItem(ir: seq<Node>, section: Section, i: nat)
    requires i <= |ir| && AllTyped(ir)
    ensures section == SECTION_DATA ==> DataOffset(ir, NextItem(ir, section, i)) == DataOffset(ir, i)
    ensures section != SECTION_DATA ==> TextAddr(ir, NextItem(ir, section, i)) == TextAddr(ir, i)
    decreases |ir| - i
  {
    if i < |ir| && !IsItem(ir[i], section) { NothingBeforeNextItem(ir, section, i + 1); }
  }

  /**
   A label's address is where the second pass lays out the next item of the label's section: the
   next instruction, or the next data directive, at or after the label (or the end of the image).
   */
  lemma LabelIsNextItem(ir: seq<Node>, j: nat)
    requires Accepted(ir) && AllTyped(ir) && j < |ir| && ir[j].Label?
    ensures var section := SectionAt(ir, j);
            var k := NextItem(ir, section, j);
            LookUp(Symbols(ir, |ir|), ir[j].name)
            == Some(if section == SECTION_DATA then DATA_BASE + DataOffset(ir, k) else TextAddr(ir, k))
  {
    hide Accepted, LookUp, Symbols, LabelIndex, NextItem;
    LabelsAreUnique(ir, j);
    TableIsComplete(ir, ir[j].name);
    NothingBeforeNextItem(ir, SectionAt(ir, j), j);
  }

  /** Accepted directives have arguments of the right kind; only .word with a name is left over. */
  lemma AcceptedIsTyped(ir: seq<Node>)
    requires Accepted(ir)
    ensures AllTyped(ir) <==> forall i :: 0 <= i < |ir| ==> !(ir[i].Dir? && ir[i].dir == WORD && ir[i].arg.Ident?)
  {
    forall i | 0 <= i < |ir|
      ensures Typed(ir[i]) <==> !(ir[i].Dir? && ir[i].dir == WORD && ir[i].arg.Ident?)
    {
      assert FirstPassError(ir, i) == Returned(ASM_OK);
    }
  }

  /** The name a node needs the table for. */
  function NameOf(n: Node): Option<string> {
    match n
    case Label(_) => None
    case Dir(dir, arg) => if (dir == ENTRY || dir == ADDR) && arg.Ident? then Some(arg.name) else None
    case Instr(_, _, _) => NameIn(MainOperand(n))
  }

  /**
   On a list the first pass accepts, the second pass fails at a node exactly when the node
   names a label that is defined nowhere, and then with ASM_LABEL_UNDEFINED.
   */
  lemma PassesAgree(ir: seq<Node>, i: nat)
    requires Accepted(ir) && i < |ir|
    ensures SecondPassError(ir, Symbols(ir, |ir|), i)
            == Returned(if NameOf(ir[i]).Some? && LabelIndex(ir, NameOf(ir[i]).value).None?
                        then ASM_LABEL_UNDEFINED else ASM_OK)
  {
    hide ModeFor, HasHandler, Symbols, LookUp, LabelIndex;
    assert FirstPassError(ir, i) == Returned(ASM_OK);
    if NameOf(ir[i]).Some? {
      TableIsComplete(ir, NameOf(ir[i]).value);
    }
  }

  /** What the two passes report says whether the whole list is acceptable. */
  lemma ReportsDecide(ir: seq<Node>, table: seq<Symbol>, first: PassResult, second: PassResult)
    ensures FirstPassReports(ir, first) ==> (first == Returned(ASM_OK) <==> Accepted(ir))
    ensures SecondPassReports(ir, table, second) ==> (second == Returned(ASM_OK) <==> EmittedUpTo(ir, table, |ir|))
  {
    hide FirstPassError, SecondPassError;
  }

  /** So on such a list the second pass as a whole either succeeds or reports an undefined label. */
  lemma PassesAgreeOnLists(ir: seq<Node>, result: PassResult)
    requires Accepted(ir) && SecondPassReports(ir, Symbols(ir, |ir|), result)
    ensures result == Returned(ASM_OK) || result == Returned(ASM_LABEL_UNDEFINED)
  {
    hide SecondPassError, AcceptedUpTo, EmittedUpTo, Symbols, LabelIndex;
    if result != Returned(ASM_OK) {
      var i :| 0 <= i < |ir| && SecondPassError(ir, Symbols(ir, |ir|), i) == result;
      PassesAgree(ir, i);
    }
  }

  // Images

  lemma {:induction false} CodeImageGrows(ir: seq<Node>, table: seq<Symbol>, i: nat, j: nat)
    requires i <= j <= |ir|
    ensures TextAddr(ir, i) <= TextAddr(ir, j)
    ensures CodeImage(ir, table, j)[..TextAddr(ir, i)] == CodeImage(ir, table, i)
  {
    hide CodeOf, CodeBytes;
    if i < j {
      CodeImageGrows(ir, table, i, j - 1);
      var before, n := CodeImage(ir, table, j - 1), TextAddr(ir, i);
      assert CodeImage(ir, table, j)[..n] == before[..n];
    }
  }

  /** Each node's bytes sit at its layout address in the final code image. */
  lemma NodeCode(ir: seq<Node>, table: seq<Symbol>, i: nat)
    requires i < |ir|
    ensures TextAddr(ir, i) + CodeBytes(ir[i]) == TextAddr(ir, i + 1) <= TextAddr(ir, |ir|)
    ensures CodeImage(ir, table, |ir|)[TextAddr(ir, i)..TextAddr(ir, i + 1)] == CodeOf(ir[i], table)
  {
    CodeImageGrows(ir, table, i + 1, |ir|);
    var image := CodeImage(ir, table, |ir|);
    assert image[TextAddr(ir, i)..TextAddr(ir, i + 1)] == image[..TextAddr(ir, i + 1)][TextAddr(ir, i)..];
  }

  lemma {:induction false} DataImageGrows(ir: seq<Node>, table: seq<Symbol>, i: nat, j: nat)
    requires i <= j <= |ir| && AllTyped(ir)
    ensures DataOffset(ir, i) <= DataOffset(ir, j)
    ensures DataImage(ir, table, j)[..DataOffset(ir, i)] == DataImage(ir, table, i)
  {
    hide DataOf, DataBytes, Typed;
    if i < j {
      DataImageGrows(ir, table, i, j - 1);
      var before, n := DataImage(ir, table, j - 1), DataOffset(ir, i);
      assert DataImage(ir, table, j)[..n] == before[..n];
    }
  }

  lemma NodeData(ir: seq<Node>, table: seq<Symbol>, i: nat)
    requires i < |ir| && AllTyped(ir)
    ensures DataOffset(ir, i) + DataBytes(ir[i]) == DataOffset(ir, i + 1) <= DataOffset(ir, |ir|)
    ensures DataImage(ir, table, |ir|)[DataOffset(ir, i)..DataOffset(ir, i + 1)] == DataOf(ir[i], table)
  {
    DataImageGrows(ir, table, i + 1, |ir|);
    var image := DataImage(ir, table, |ir|);
    assert image[DataOffset(ir, i)..DataOffset(ir, i + 1)] == image[..DataOffset(ir, i + 1)][DataOffset(ir, i)..];
  }

  /** Every byte of the code image is emitted by exactly one node. */
  lemma {:induction false} ByteOwner(ir: seq<Node>, n: nat, p: nat) returns (i: nat)
    requires n <= |ir| && p < TextAddr(ir, n)
    ensures i < n && TextAddr(ir, i) <= p < TextAddr(ir, i + 1)
    ensures forall j :: 0 <= j < n && TextAddr(ir, j) <= p < TextAddr(ir, j + 1) ==> j == i
  {
    if p < TextAddr(ir, n - 1) {
      i := ByteOwner(ir, n - 1, p);
    } else {
      i := n - 1;
      forall j | 0 <= j < n && TextAddr(ir, j) <= p < TextAddr(ir, j + 1)
        ensures j == i
      {
        AddressesGrow(ir, j + 1, n);
        if j < i { AddressesGrow(ir, j + 1, i); }
      }
    }
  }

  /** And every byte of the data image. */
  lemma {:induction false} DataByteOwner(ir: seq<Node>, n: nat, p: nat) returns (i: nat)
    requires n <= |ir| && p < DataOffset(ir, n)
    ensures i < n && DataOffset(ir, i) <= p < DataOffset(ir, i + 1)
    ensures forall j :: 0 <= j < n && DataOffset(ir, j) <= p < DataOffset(ir, j + 1) ==> j == i
  {
    if p < DataOffset(ir, n - 1) {
      i := DataByteOwner(ir, n - 1, p);
    } else {
      i := n - 1;
      forall j | 0 <= j < n && DataOffset(ir, j) <= p < DataOffset(ir, j + 1)
        ensures j == i
      {
        AddressesGrow(ir, j + 1, n);
        if j < i { AddressesGrow(ir, j + 1, i); }
      }
    }
  }

  /** Which byte of the final image it is: the owner's encoding, read at its offset. */
  lemma CodeByte(ir: seq<Node>, table: seq<Symbol>, p: nat)
    requires p < TextAddr(ir, |ir|)
    ensures exists i :: 0 <= i < |ir| && ir[i].Instr? && TextAddr(ir, i) <= p < TextAddr(ir, i + 1)
                        && CodeImage(ir, table, |ir|)[p] == Encode(InstrOf(ir[i], table))[p - TextAddr(ir, i)]
  {
    hide Encode, InstrOf;
    var i := ByteOwner(ir, |ir|, p);
    NodeCode(ir, table, i);
    var at := TextAddr(ir, i);
    assert CodeImage(ir, table, |ir|)[at..TextAddr(ir, i + 1)][p - at] == CodeOf(ir[i], table)[p - at];
  }

  /** The same for the data image: the owner is a data directive, read at its offset. */
  lemma DataByte(ir: seq<Node>, table: seq<Symbol>, p: nat)
    requires AllTyped(ir) && p < DataOffset(ir, |ir|)
    ensures exists i :: 0 <= i < |ir| && IsItem(ir[i], SECTION_DATA) && DataOffset(ir, i) <= p < DataOffset(ir, i + 1)
                        && DataImage(ir, table, |ir|)[p] == DataOf(ir[i], table)[p - DataOffset(ir, i)]
  {
    hide DataOf;
    var i := DataByteOwner(ir, |ir|, p);
    NodeData(ir, table, i);
    var at := DataOffset(ir, i);
    assert DataImage(ir, table, |ir|)[at..DataOffset(ir, i + 1)][p - at] == DataOf(ir[i], table)[p - at];
  }
}
