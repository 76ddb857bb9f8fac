/** Submitted form data, as the route action reads it with FormData.get. */
module Forms {

  /** What one form entry holds: a string, or a file upload. */
  datatype EntryValue = TextEntry(text: string) | FileEntry

  datatype Entry = Entry(name: string, value: EntryValue)

  /** The result of FormData.get: a string, a non-string value (a File), or null. */
  datatype FormValue = Str(s: string) | File | Absent

  function FromEntry(v: EntryValue): (r: FormValue)
    ensures r != Absent
  {
    match v
    case TextEntry(t) => Str(t)
    case FileEntry => File
  }

  /** Entry `i` is the first entry of the form named `name`. */
  predicate FirstNamed(form: seq<Entry>, name: string, i: int) {
    0 <= i < |form| && form[i].name == name && forall j :: 0 <= j < i ==> form[j].name != name
  }

  /** FormData.get: the value of the first entry with that name, null when there is none. */
  function Get(form: seq<Entry>, name: string): (v: FormValue)
    ensures v == Absent <==> forall i :: 0 <= i < |form| ==> form[i].name != name
    ensures v != Absent ==> exists i :: FirstNamed(form, name, i) && v == FromEntry(form[i].value)
  {
    if form == [] then Absent
    else if form[0].name == name then
      assert FirstNamed(form, name, 0);
      FromEntry(form[0].value)
    else
      var v := Get(form[1..], name);
      assert v != Absent ==> exists i :: FirstNamed(form, name, i) && v == FromEntry(form[i].value) by {
        if v != Absent {
          var k :| FirstNamed(form[1..], name, k) && v == FromEntry(form[1..][k].value);
          assert FirstNamed(form, name, k + 1);
        }
      }
      v
  }
}
