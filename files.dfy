/**
 * The value to assign to a FileField (utils/files.py).
 *
 * The storage backend's `exists` is the parameter `inStorage`. The function is generic in
 * the type of the file object, so it cannot look at the object's own name:
 * the existence test can only use `filename`.
 */
module Files {
  import opened Wrappers

  /** What `filefield_value_for_storage` returns: `None`, the file name, or the file object itself. */
  datatype FieldValue<F> = NoFile | StoredName(name: string) | Upload(file: F)

  /**
   * `filefield_value_for_storage(filename, fileobj)`: nothing without a file
   * object; the name alone when storage already holds `filename`; otherwise
   * the very file object, to be uploaded.
   */
  function FileFieldValueForStorage<F>(inStorage: string -> bool, filename: string, fileobj: Option<F>): (r: FieldValue<F>)
    ensures r.NoFile? <==> fileobj.None?
    ensures r.StoredName? <==> fileobj.Some? && inStorage(filename)
    ensures r.StoredName? ==> r.name == filename
    ensures r.Upload? <==> fileobj.Some? && !inStorage(filename)
    ensures r.Upload? ==> r.file == fileobj.value
  {
    if fileobj.None? then NoFile
    else if inStorage(filename) then StoredName(filename)
    else Upload(fileobj.value)
  }
}
