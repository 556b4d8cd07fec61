/**
 * Import Address Table patching (patchimport, restoreimport, patchmodule
 * and restoremodule in utility.cpp).
 *
 * A module's import directory is a sequence of descriptors ending with one
 * whose OriginalFirstThunk is 0. Each descriptor names an exporting module
 * and gives the offset (FirstThunk) of that module's IAT in the importing
 * module's thunk memory, modelled as one array of addresses; an IAT is the
 * run of slots from FirstThunk up to the first 0. The real address of an
 * import (GetProcAddress on GetModuleHandleA) is an abstract input.
 */
module ImportPatching {
  import opened Common
  import opened Strings

  datatype ImportDescriptor = ImportDescriptor(originalFirstThunk: nat, name: string, firstThunk: nat)

  /** One row of a patch table (patchentry_t). */
  datatype PatchEntry = PatchEntry(exportModuleName: string, importName: string, replacement: nat)

  /** The real address of an export, by exporting module and import name (0 when there is none). */
  type Exports = (string, string) -> nat

  /** The directory has a terminating descriptor at or after index i. */
  predicate HasTerminator(idt: seq<ImportDescriptor>, i: nat)
  {
    exists k :: i <= k < |idt| && idt[k].originalFirstThunk == 0
  }

  /** The thunk memory holds a 0 at or after index start. */
  predicate Terminated(t: seq<nat>, start: nat)
  {
    exists k :: start <= k < |t| && t[k] == 0
  }

  /** A well-formed image: the directory is terminated and so is every IAT it describes. */
  predicate WellFormed(idt: seq<ImportDescriptor>, t: seq<nat>)
  {
    && HasTerminator(idt, 0)
    && forall i :: 0 <= i < |idt| && idt[i].originalFirstThunk != 0 ==> Terminated(t, idt[i].firstThunk)
  }

  /** Index of the first terminating descriptor at or after i. */
  function EndOfTable(idt: seq<ImportDescriptor>, i: nat): (e: nat)
    requires HasTerminator(idt, i)
    ensures i <= e < |idt| && idt[e].originalFirstThunk == 0
    ensures forall k :: i <= k < e ==> idt[k].originalFirstThunk != 0
    decreases |idt| - i
  {
    if idt[i].originalFirstThunk == 0 then i
    else
      assert HasTerminator(idt, i + 1) by {
        var k :| i <= k < |idt| && idt[k].originalFirstThunk == 0;
        assert k != i;
      }
      EndOfTable(idt, i + 1)
  }

  /** Index of the first 0 at or after start. */
  function EndOfIat(t: seq<nat>, start: nat): (e: nat)
    requires Terminated(t, start)
    ensures start <= e < |t| && t[e] == 0
    ensures forall k :: start <= k < e ==> t[k] != 0
    decreases |t| - start
  {
    if t[start] == 0 then start
    else
      assert Terminated(t, start + 1) by {
        var k :| start <= k < |t| && t[k] == 0;
        assert k != start;
      }
      EndOfIat(t, start + 1)
  }

  /** The IDT entry for the exporting module: the first descriptor whose name matches, ignoring case. */
  function FindDescriptor(idt: seq<ImportDescriptor>, exportModuleName: string, i: nat): (r: Option<nat>)
    requires HasTerminator(idt, i)
    ensures r.Some? ==> i <= r.value < EndOfTable(idt, i)
                        && EqualsIgnoreCase(idt[r.value].name, exportModuleName)
                        && forall k :: i <= k < r.value ==> !EqualsIgnoreCase(idt[k].name, exportModuleName)
    ensures r.None? ==> forall k :: i <= k < EndOfTable(idt, i) ==> !EqualsIgnoreCase(idt[k].name, exportModuleName)
    decreases |idt| - i
  {
    if idt[i].originalFirstThunk == 0 then None
    else if EqualsIgnoreCase(idt[i].name, exportModuleName) then Some(i)
    else
      assert HasTerminator(idt, i + 1) by {
        var k :| i <= k < |idt| && idt[k].originalFirstThunk == 0;
        assert k != i;
      }
      FindDescriptor(idt, exportModuleName, i + 1)
  }

  /** The first IAT slot at or after start, before the terminator, that holds value. */
  function FirstSlot(t: seq<nat>, start: nat, value: nat): (r: Option<nat>)
    requires Terminated(t, start)
    ensures r.Some? ==> start <= r.value < EndOfIat(t, start) && t[r.value] == value
                        && forall k :: start <= k < r.value ==> t[k] != value
    ensures r.None? ==> forall k :: start <= k < EndOfIat(t, start) ==> t[k] != value
    decreases |t| - start
  {
    if t[start] == 0 then None
    else if t[start] == value then Some(start)
    else
      assert Terminated(t, start + 1) by {
        var k :| start <= k < |t| && t[k] == 0;
        assert k != start;
      }
      FirstSlot(t, start + 1, value)
  }

  /**
   * The slot patchimport and restoreimport look for: in the IAT of the
   * first descriptor naming the exporting module, the first slot holding
   * `value`. A module without an import directory has none.
   */
  function ImportSlot(idt: Option<seq<ImportDescriptor>>, t: seq<nat>, exportModuleName: string, value: nat): (r: Option<nat>)
    requires idt.Some? ==> WellFormed(idt.value, t)
    ensures r.Some? ==> r.value < |t| && t[r.value] == value && value != 0
  {
    if idt.None? then None
    else
      match FindDescriptor(idt.value, exportModuleName, 0)
      case None => None
      case Some(i) => FirstSlot(t, idt.value[i].firstThunk, value)
  }

  /** The thunk memory after patchimport. */
  function Patched(idt: Option<seq<ImportDescriptor>>, t: seq<nat>, entry: PatchEntry, exports: Exports): seq<nat>
    requires idt.Some? ==> WellFormed(idt.value, t)
  {
    match ImportSlot(idt, t, entry.exportModuleName, exports(entry.exportModuleName, entry.importName))
    case None => t
    case Some(j) => t[j := entry.replacement]
  }

  /** The thunk memory after restoreimport. */
  function Restored(idt: Option<seq<ImportDescriptor>>, t: seq<nat>, entry: PatchEntry, exports: Exports): seq<nat>
    requires idt.Some? ==> WellFormed(idt.value, t)
  {
    match ImportSlot(idt, t, entry.exportModuleName, entry.replacement)
    case None => t
    case Some(j) => t[j := exports(entry.exportModuleName, entry.importName)]
  }

  /** Overwriting a non-zero slot keeps every IAT terminated. */
  lemma OverwriteKeepsWellFormed(idt: seq<ImportDescriptor>, t: seq<nat>, j: nat, x: nat)
    requires WellFormed(idt, t) && j < |t| && t[j] != 0
    ensures WellFormed(idt, t[j := x])
  {
    var u := t[j := x];
    forall i | 0 <= i < |idt| && idt[i].originalFirstThunk != 0
      ensures Terminated(u, idt[i].firstThunk)
    {
      var k :| idt[i].firstThunk <= k < |t| && t[k] == 0;
      assert u[k] == 0;
    }
  }

  /** patchimport: only the slot holding the real import changes, and it then holds the replacement. */
  lemma PatchedChangesOnlyImportSlot(idt: Option<seq<ImportDescriptor>>, t: seq<nat>, entry: PatchEntry, exports: Exports)
    requires idt.Some? ==> WellFormed(idt.value, t)
    ensures var slot := ImportSlot(idt, t, entry.exportModuleName, exports(entry.exportModuleName, entry.importName));
            var u := Patched(idt, t, entry, exports);
            && |u| == |t|
            && (forall k :: 0 <= k < |t| && slot != Some(k) ==> u[k] == t[k])
            && (slot.Some? ==> u[slot.value] == entry.replacement)
            && (idt.Some? ==> WellFormed(idt.value, u))
  {
    var slot := ImportSlot(idt, t, entry.exportModuleName, exports(entry.exportModuleName, entry.importName));
    if slot.Some? {
      OverwriteKeepsWellFormed(idt.value, t, slot.value, entry.replacement);
    }
  }

  /** restoreimport: only the slot holding the replacement changes, and it then holds the real import. */
  lemma RestoredChangesOnlyReplacementSlot(idt: Option<seq<ImportDescriptor>>, t: seq<nat>, entry: PatchEntry, exports: Exports)
    requires idt.Some? ==> WellFormed(idt.value, t)
    ensures var slot := ImportSlot(idt, t, entry.exportModuleName, entry.replacement);
            var u := Restored(idt, t, entry, exports);
            && |u| == |t|
            && (forall k :: 0 <= k < |t| && slot != Some(k) ==> u[k] == t[k])
            && (slot.Some? ==> u[slot.value] == exports(entry.exportModuleName, entry.importName))
            && (idt.Some? ==> WellFormed(idt.value, u))
  {
    var slot := ImportSlot(idt, t, entry.exportModuleName, entry.replacement);
    if slot.Some? {
      OverwriteKeepsWellFormed(idt.value, t, slot.value, exports(entry.exportModuleName, entry.importName));
    }
  }

  /** A module that imports nothing from the exporting module is left alone by both operations. */
  lemma NoDescriptorNoChange(idt: Option<seq<ImportDescriptor>>, t: seq<nat>, entry: PatchEntry, exports: Exports)
    requires idt.Some? ==> WellFormed(idt.value, t)
    requires idt.Some? ==> forall k :: 0 <= k < EndOfTable(idt.value, 0) ==>
                             !EqualsIgnoreCase(idt.value[k].name, entry.exportModuleName)
    ensures Patched(idt, t, entry, exports) == t
    ensures Restored(idt, t, entry, exports) == t
  {
  }

  /** Overwriting a slot before the terminator with a non-zero value keeps the terminator where it was. */
  lemma EndOfIatAfterOverwrite(t: seq<nat>, start: nat, j: nat, x: nat)
    requires Terminated(t, start) && start <= j < EndOfIat(t, start) && x != 0
    ensures Terminated(t[j := x], start) && EndOfIat(t[j := x], start) == EndOfIat(t, start)
  {
    var e := EndOfIat(t, start);
    var u := t[j := x];
    assert u[e] == 0;
  }

  /**
   * Patching and then restoring the same entry gives back the original
   * thunks, provided the replacement is not 0 and was not already in the
   * IAT the entry is about.
   */
  lemma PatchThenRestore(idt: Option<seq<ImportDescriptor>>, t: seq<nat>, entry: PatchEntry, exports: Exports)
    requires idt.Some? ==> WellFormed(idt.value, t)
    requires entry.replacement != 0
    requires ImportSlot(idt, t, entry.exportModuleName, entry.replacement).None?
    ensures var u := Patched(idt, t, entry, exports);
            (idt.Some? ==> WellFormed(idt.value, u)) && Restored(idt, u, entry, exports) == t
  {
    var realImport := exports(entry.exportModuleName, entry.importName);
    PatchedChangesOnlyImportSlot(idt, t, entry, exports);
    var slot := ImportSlot(idt, t, entry.exportModuleName, realImport);
    var u := Patched(idt, t, entry, exports);
    if slot.Some? {
      var table := idt.value;
      var i := FindDescriptor(table, entry.exportModuleName, 0).value;
      var start := table[i].firstThunk;
      var j := slot.value;
      assert FirstSlot(t, start, realImport) == Some(j);
      assert FirstSlot(t, start, entry.replacement).None?;
      EndOfIatAfterOverwrite(t, start, j, entry.replacement);
      assert u == t[j := entry.replacement];
      assert u[j] == entry.replacement;
      assert ImportSlot(idt, u, entry.exportModuleName, entry.replacement) == Some(j);
      assert u[j := realImport] == t;
    }
  }

  // -----------------------------------------------------------------------
  // Table-driven application.

  /** The thunk memory after patchmodule: each entry patched once, in table order. */
  function PatchedAll(idt: Option<seq<ImportDescriptor>>, t: seq<nat>, table: seq<PatchEntry>, exports: Exports): (u: seq<nat>)
    requires idt.Some? ==> WellFormed(idt.value, t)
    ensures |u| == |t| && (idt.Some? ==> WellFormed(idt.value, u))
  {
    if table == [] then t
    else
      var before := PatchedAll(idt, t, table[..|table| - 1], exports);
      PatchedChangesOnlyImportSlot(idt, before, table[|table| - 1], exports);
      Patched(idt, before, table[|table| - 1], exports)
  }

  /** The thunk memory after restoremodule: each entry restored once, in table order. */
  function RestoredAll(idt: Option<seq<ImportDescriptor>>, t: seq<nat>, table: seq<PatchEntry>, exports: Exports): (u: seq<nat>)
    requires idt.Some? ==> WellFormed(idt.value, t)
    ensures |u| == |t| && (idt.Some? ==> WellFormed(idt.value, u))
  {
    if table == [] then t
    else
      var before := RestoredAll(idt, t, table[..|table| - 1], exports);
      RestoredChangesOnlyReplacementSlot(idt, before, table[|table| - 1], exports);
      Restored(idt, before, table[|table| - 1], exports)
  }

  /** patchmodule on a module that imports none of the table's entries changes nothing. */
  lemma {:induction false} PatchedAllNoImports(idt: Option<seq<ImportDescriptor>>, t: seq<nat>, table: seq<PatchEntry>, exports: Exports)
    requires idt.Some? ==> WellFormed(idt.value, t)
    requires forall n :: 0 <= n < |table| ==>
               ImportSlot(idt, t, table[n].exportModuleName, exports(table[n].exportModuleName, table[n].importName)).None?
    ensures PatchedAll(idt, t, table, exports) == t
  {
    if table != [] {
      PatchedAllNoImports(idt, t, table[..|table| - 1], exports);
    }
  }

  /** restoremodule on a module holding none of the table's replacements changes nothing. */
  lemma {:induction false} RestoredAllNoReplacements(idt: Option<seq<ImportDescriptor>>, t: seq<nat>, table: seq<PatchEntry>, exports: Exports)
    requires idt.Some? ==> WellFormed(idt.value, t)
    requires forall n :: 0 <= n < |table| ==> ImportSlot(idt, t, table[n].exportModuleName, table[n].replacement).None?
    ensures RestoredAll(idt, t, table, exports) == t
  {
    if table != [] {
      RestoredAllNoReplacements(idt, t, table[..|table| - 1], exports);
    }
  }

  // -----------------------------------------------------------------------
  // The routines, over the module's thunk memory.

  /** The IDT walk of patchimport and restoreimport. */
  method LocateDescriptor(idt: seq<ImportDescriptor>, exportModuleName: string) returns (found: Option<nat>)
    requires HasTerminator(idt, 0)
    ensures found == FindDescriptor(idt, exportModuleName, 0)
  {
    var d := 0;
    while idt[d].originalFirstThunk != 0
      invariant d <= EndOfTable(idt, 0)
      invariant forall k :: 0 <= k < d ==> !EqualsIgnoreCase(idt[k].name, exportModuleName)
      decreases EndOfTable(idt, 0) - d
    {
      if EqualsIgnoreCase(idt[d].name, exportModuleName) {
        // Found the IDT entry for the exporting module.
        break;
      }
      d := d + 1;
    }
    found := if idt[d].originalFirstThunk == 0 then None else Some(d);
  }

  /** Overwrite the first slot of the IAT at start that holds `from` with `to`. */
  method OverwriteFirst(thunks: array<nat>, start: nat, from: nat, to: nat)
    requires Terminated(thunks[..], start)
    modifies thunks
    ensures thunks[..] == match FirstSlot(old(thunks[..]), start, from)
                          case None => old(thunks[..])
                          case Some(j) => old(thunks[..])[j := to]
  {
    ghost var t := thunks[..];
    var iate := start;
    while thunks[iate] != 0
      invariant start <= iate <= EndOfIat(t, start)
      invariant thunks[..] == t
      invariant forall k :: start <= k < iate ==> t[k] != from
      decreases EndOfIat(t, start) - iate
    {
      if thunks[iate] == from {
        // Found the IAT entry; the protection change around the write is not modelled.
        thunks[iate] := to;
        assert FirstSlot(t, start, from) == Some(iate);
        return;
      }
      iate := iate + 1;
    }
    assert FirstSlot(t, start, from).None? by {
      assert iate == EndOfIat(t, start);
    }
  }

  /** patchimport: route the module's calls to the import through to the replacement. */
  method PatchImport(idt: Option<seq<ImportDescriptor>>, thunks: array<nat>, entry: PatchEntry, exports: Exports)
    requires idt.Some? ==> WellFormed(idt.value, thunks[..])
    modifies thunks
    ensures thunks[..] == Patched(idt, old(thunks[..]), entry, exports)
  {
    if idt.None? {
      // This module imports nothing.
      return;
    }
    var d := LocateDescriptor(idt.value, entry.exportModuleName);
    if d.None? {
      // Nothing is imported from the exporting module.
      return;
    }
    var importAddress := exports(entry.exportModuleName, entry.importName);
    OverwriteFirst(thunks, idt.value[d.value].firstThunk, importAddress, entry.replacement);
  }

  /** restoreimport: put the real import back into the slot that holds the replacement. */
  method RestoreImport(idt: Option<seq<ImportDescriptor>>, thunks: array<nat>, entry: PatchEntry, exports: Exports)
    requires idt.Some? ==> WellFormed(idt.value, thunks[..])
    modifies thunks
    ensures thunks[..] == Restored(idt, old(thunks[..]), entry, exports)
  {
    if idt.None? {
      return;
    }
    var d := LocateDescriptor(idt.value, entry.exportModuleName);
    if d.None? {
      return;
    }
    var importAddress := exports(entry.exportModuleName, entry.importName);
    OverwriteFirst(thunks, idt.value[d.value].firstThunk, entry.replacement, importAddress);
  }

  /** patchmodule: patch every entry of the table, in index order. */
  method PatchModule(idt: Option<seq<ImportDescriptor>>, thunks: array<nat>, table: seq<PatchEntry>, exports: Exports)
    requires idt.Some? ==> WellFormed(idt.value, thunks[..])
    modifies thunks
    ensures thunks[..] == PatchedAll(idt, old(thunks[..]), table, exports)
  {
    var index := 0;
    while index < |table|
      invariant index <= |table|
      invariant thunks[..] == PatchedAll(idt, old(thunks[..]), table[..index], exports)
    {
      PatchImport(idt, thunks, table[index], exports);
      assert table[..index + 1][..index] == table[..index];
      index := index + 1;
    }
    assert table[..index] == table;
  }

  /** restoremodule: restore every entry of the table, in index order. */
  method RestoreModule(idt: Option<seq<ImportDescriptor>>, thunks: array<nat>, table: seq<PatchEntry>, exports: Exports)
    requires idt.Some? ==> WellFormed(idt.value, thunks[..])
    modifies thunks
    ensures thunks[..] == RestoredAll(idt, old(thunks[..]), table, exports)
  {
    var index := 0;
    while index < |table|
      invariant index <= |table|
      invariant thunks[..] == RestoredAll(idt, old(thunks[..]), table[..index], exports)
    {
      RestoreImport(idt, thunks, table[index], exports);
      assert table[..index + 1][..index] == table[..index];
      index := index + 1;
    }
    assert table[..index] == table;
  }
}
