/** _get_notebook_dir_path, the same code in both variants: the output
    directory is the argument if one is given, else the value of the
    environment variable ALKH_NOTEBOOKS_PATH, and it must be a directory.
    The environment lookup and the directory test are inputs. */
module OutputDir {
  import opened Base

  const EnvironmentVariable := "ALKH_NOTEBOOKS_PATH"

  const NotProvidedMessage :=
    "notebook_dir_path is not provided and " + EnvironmentVariable + " is not in environment variables"

  /** f"{notebook_dir_path} does not exists" */
  function NotADirectoryMessage(path: string): string {
    path + " does not exists"
  }

  /** arg: the notebook_dir_path argument (None when omitted); env: os.getenv(ALKH_NOTEBOOKS_PATH);
      isDir: os.path.isdir. */
  function GetNotebookDirPath(arg: Option<string>, env: Option<string>, isDir: string -> bool): (r: Result<string>)
    ensures arg.None? && env.None? ==> r == Err(EnvironmentError(NotProvidedMessage))
    ensures r.Ok? <==> (arg.Some? && isDir(arg.value)) || (arg.None? && env.Some? && isDir(env.value))
    ensures r.Ok? ==> r.value == (if arg.Some? then arg.value else env.value)
    ensures arg.Some? && !isDir(arg.value) ==> r == Err(OSError(NotADirectoryMessage(arg.value)))
    ensures arg.None? && env.Some? && !isDir(env.value) ==> r == Err(OSError(NotADirectoryMessage(env.value)))
  {
    var path :=
      if arg.Some? then Ok(arg.value)
      else if env.Some? then Ok(env.value)
      else Err(EnvironmentError(NotProvidedMessage));
    if path.Err? then path
    else if !isDir(path.value) then Err(OSError(NotADirectoryMessage(path.value)))
    else path
  }

  /** An explicit argument takes precedence: the environment is not consulted. */
  lemma ArgumentTakesPrecedence(arg: string, env1: Option<string>, env2: Option<string>, isDir: string -> bool)
    ensures GetNotebookDirPath(Some(arg), env1, isDir) == GetNotebookDirPath(Some(arg), env2, isDir)
  {
  }
}
