/** The durable file model shared by the journals and indexes.

  Every repository publishes a file by writing a private pending file, hard-linking it to its final
  name and unlinking the pending name.  A process killed between the last two steps leaves one inode
  with two names, and every later read refuses it because its link count is not one.  `doubled`
  records that residue.  A file that was never linked is simply absent. */
module CreateOnlyFiles {

  datatype Option<+T> = None | Some(value: T)

  /** SHA-256 over canonical bytes, taken to be injective: a digest is exactly what was hashed. */
  datatype Sha256<T> = Sha256(of: T)

  datatype File<T> = File(content: T, doubled: bool)

  type Directory<K, T> = map<K, File<T>>

  datatype Reading<T> = Absent | Present(content: T) | Unreadable

  function ReadOptional<K, T>(dir: Directory<K, T>, name: K): Reading<T> {
    if name !in dir then Absent
    else if dir[name].doubled then Unreadable
    else Present(dir[name].content)
  }

  /** Every create-only write first unlinks the pending residue of its own directory. */
  function Cleanup<K, T>(dir: Directory<K, T>): (clean: Directory<K, T>)
    ensures clean.Keys == dir.Keys
    ensures forall k :: k in dir ==> clean[k] == File(dir[k].content, false)
  {
    map k | k in dir :: File(dir[k].content, false)
  }

  /** The result of one write by a process that may be killed. `left` counts the durable effects the
    process still lives for. */
  datatype Written<K, T> =
    | Stored(dir: Directory<K, T>, left: nat)
    | Differs(dir: Directory<K, T>)
    | Killed(dir: Directory<K, T>)

  /** Create-only write in three durable effects: clean the directory, link, unlink. */
  function CreateOnly<K, T(==)>(dir: Directory<K, T>, name: K, content: T, life: nat): Written<K, T> {
    if life == 0 then Killed(dir)
    else
      var clean := Cleanup(dir);
      if name in clean then
        if clean[name].content == content then Stored(clean, life - 1) else Differs(clean)
      else if life == 1 then Killed(clean)
      else if life == 2 then Killed(clean[name := File(content, true)])
      else Stored(clean[name := File(content, false)], life - 3)
  }

  /** `after` keeps every file of `before`; only pending residue may have gone. */
  ghost predicate Extends<K, T>(before: Directory<K, T>, after: Directory<K, T>) {
    forall k :: k in before ==>
      k in after && after[k].content == before[k].content && (after[k].doubled ==> before[k].doubled)
  }

  /** A create-only write never changes or removes a file, wherever the process dies, and a write that
    reports success leaves exactly its content, readable. */
  lemma CreateOnlyIsWriteOnce<K, T>(dir: Directory<K, T>, name: K, content: T, life: nat)
    ensures var w := CreateOnly(dir, name, content, life);
      && Extends(dir, w.dir)
      && (forall k :: k in w.dir && k !in dir ==> k == name && w.dir[k].content == content)
      && (w.Stored? <==> life >= 1 && (if name in dir then dir[name].content == content else life >= 3))
      && (w.Stored? ==> ReadOptional(w.dir, name) == Present(content))
  {
  }
}
