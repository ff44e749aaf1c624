/** A supervised project and the wrapped rows of its captured output. */
module ProjectOutput {
  import Text
  import Wrapping
  import AppView
  import opened Ints

  /** The descriptor of a project and the output captured from it so far. */
  datatype Project = Project(name: string, executable: string, workdir: string, output: string)

  /**
   * `Project::lines`: the captured output wrapped to `width`, by the same
   * loop as `App::lines`, so it computes the same rows.
   */
  function Lines(project: Project, width: U16): (rows: seq<string>)
    requires width >= 1
    ensures rows == AppView.Lines(AppView.App(project.output), width)
    ensures forall k :: 0 <= k < |rows| ==> 1 <= |rows[k]| <= width
  {
    Wrapping.WrapAll(Text.SplitLines(project.output), width)
  }
}
