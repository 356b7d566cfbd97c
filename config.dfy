/** The builder's fixed directory layout below the project root, and its structure check. */
module Configuration {
  import opened Wrappers
  import opened Files

  datatype Config = Config(projectRoot: Path) {
    function Src(): Path { projectRoot + ["src"] }
    function Build(): Path { projectRoot + ["build"] }
    function Lambdas(): Path { Build() + ["lambdas"] }
    function Layers(): Path { Build() + ["layers"] }
    function AppSync(): Path { Build() + ["appsync"] }
    function GraphQL(): Path { Src() + ["api", "graphql"] }
    function Handlers(): Path { Src() + ["handlers"] }
    function Adapters(): Path { Src() + ["adapters"] }
    function Utils(): Path { Src() + ["utils"] }

    /** `Config.validate()`: the five source directories exist. */
    predicate Validate(fs: FileSystem) {
      fs.Exists(Src()) && fs.Exists(GraphQL()) && fs.Exists(Handlers()) && fs.Exists(Adapters()) && fs.Exists(Utils())
    }

    /**
     * `Config.ensure_build_dirs()`: the build directory and its three subdirectories are created, with
     * their ancestors; it raises exactly when a file lies on the way to one of them.
     */
    function EnsureBuildDirs(fs: FileSystem): (r: Option<FileSystem>)
      ensures r.Some? ==> r.value.files == fs.files
      ensures r.Some? ==> r.value.IsDir(Build()) && r.value.IsDir(AppSync()) && r.value.IsDir(Lambdas()) && r.value.IsDir(Layers())
      ensures r.Some? ==> r.value.dirs == fs.dirs + Prefixes(Build()) + Prefixes(AppSync()) + Prefixes(Lambdas()) + Prefixes(Layers())
      ensures r.None? <==> exists q :: q in fs.files && q != [] && (IsPrefix(q, AppSync()) || IsPrefix(q, Lambdas()) || IsPrefix(q, Layers()))
    {
      match MakeDirs(fs, Build())
      case None => None
      case Some(a) =>
        match MakeDirs(a, AppSync())
        case None => None
        case Some(b) =>
          match MakeDirs(b, Lambdas())
          case None => None
          case Some(c) =>
            match MakeDirs(c, Layers())
            case None => None
            case Some(d) =>
              assert Build() in Prefixes(Build()) && AppSync() in Prefixes(AppSync());
              assert Lambdas() in Prefixes(Lambdas()) && Layers() in Prefixes(Layers());
              Some(d)
    }
  }
}
