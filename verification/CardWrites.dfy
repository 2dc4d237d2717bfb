// What a list of writes comes to under the kernel's answers: to adding (true) and to taking
// out (false) each address (src/sync/mod.rs, `register_batch_locked` and `retire`).

module CardWrites {
  import opened Basics
  import opened Ownership

  type Kernel = (Mac, bool) -> Answer

  function Accepted(macs: set<Mac>, answer: Kernel): set<Mac> {
    set m | m in macs && answer(m, true) == Ok
  }

  /** Fresh intents the card refused: there already, and not by this note. */
  function SomebodyElses(note: set<Mac>, macs: set<Mac>, answer: Kernel): set<Mac> {
    set m | m in macs && m !in note && answer(m, true) == Exists
  }

  /** The entries a registration adds: none where the note refused its intents. */
  function PutBy(macs: set<Mac>, takes: bool, answer: Kernel): set<Mac> {
    if takes then Accepted(macs, answer) else {}
  }

  function NoteBehind(note: set<Mac>, macs: set<Mac>, takes: bool, unnoteFails: bool, answer: Kernel): set<Mac> {
    if takes then note + macs - (if unnoteFails then {} else SomebodyElses(note, macs, answer)) else note
  }

  /** The removals that took an entry out. */
  function TakenBy(macs: set<Mac>, answer: Kernel): set<Mac> {
    set m | m in macs && answer(m, false) == Ok
  }

  /** Out of the card: taken out now, or found absent. */
  function LetGoBy(macs: set<Mac>, answer: Kernel): set<Mac> {
    TakenBy(macs, answer) + set m | m in macs && answer(m, false) == Absent
  }
}
