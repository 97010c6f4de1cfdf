/** The path helper of `util/Utils.java` (duplicated verbatim in `PermissionManager`). */
module Utils {
  import opened Wrappers
  import opened Paths

  /** getNearestCommonAncestor: null or a member of `ancestors` is returned as is; a path
      starting with `/` is refused; otherwise the delimiter-cut prefixes of the path are tried
      from the longest down, and the first member found is returned, or null. */
  method GetNearestCommonAncestor(path: Path, ancestors: set<Path>) returns (r: Result<Path, PathError>)
    ensures r == NearestAncestor(path, ancestors)
  {
    if path.None? || path in ancestors {
      return Ok(path);
    }
    if StartsWithDelimiter(path.value) {
      return Err(LeadingDelimiter);
    }
    var subpath := path.value;
    var index := LastDelimiter(subpath);
    while index != -1
      invariant index == LastDelimiter(subpath)
      invariant Nearest(path.value, ancestors) == Nearest(subpath, ancestors)
      decreases |subpath|
    {
      subpath := subpath[..index];
      if Some(subpath) in ancestors {
        return Ok(Some(subpath));
      }
      index := LastDelimiter(subpath);
    }
    return Ok(None);
  }
}
