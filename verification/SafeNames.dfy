/** Names that stay inside one directory. */
module SafeNames {
  /** The names a scene or a model may have. */
  predicate IsSafeName(name: string) {
    && name != "" && name[0] != '.'
    && (forall i :: 0 <= i < |name| ==> name[i] != '/' && name[i] != '\\')
    && (forall i :: 0 <= i < |name| - 1 ==> !(name[i] == '.' && name[i + 1] == '.'))
  }

  /** Exactly the names that are one visible segment: no separator, no two dots, none in front, and not empty. */
  lemma SafeNamesExactly(name: string)
    ensures IsSafeName(name)
       <==> && name != "" && name[0] != '.'
            && (forall front: string, back: string :: name != front + "/" + back)
            && (forall front: string, back: string :: name != front + "\\" + back)
            && (forall front: string, back: string :: name != front + ".." + back)
  {
    if !IsSafeName(name) && name != "" && name[0] != '.' {
      if i :| 0 <= i < |name| && (name[i] == '/' || name[i] == '\\') {
        assert name == name[..i] + [name[i]] + name[i + 1..];
      } else {
        var i :| 0 <= i < |name| - 1 && name[i] == '.' && name[i + 1] == '.';
        assert name == name[..i] + ".." + name[i + 2..];
      }
    }
    if IsSafeName(name) {
      forall front: string, back: string ensures name != front + "/" + back && name != front + "\\" + back {
        assert (front + "/" + back)[|front|] == '/' && (front + "\\" + back)[|front|] == '\\';
      }
      forall front: string, back: string ensures name != front + ".." + back {
        assert (front + ".." + back)[|front|] == '.' && (front + ".." + back)[|front| + 1] == '.';
      }
    }
  }
}
